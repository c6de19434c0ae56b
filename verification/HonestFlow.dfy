/** The whole flow between honest parties: a wallet that holds an answered credential posts exactly what the verifier's
    request asks for, and the verifier's handler for it ends in a valid verdict. Other parties may do anything in between. */
module HonestFlow {
  import opened Basics
  import opened Crypto
  import opened SafeFetch
  import C = CompactForm
  import S = SdJwt
  import ST = SdJwtTheorems
  import D = Mdoc
  import DT = MdocTheorems
  import Q = Dcql
  import L = StatusLists
  import RO = RequestObject
  import W = Wallet
  import I = IssuerModel
  import R = Revocation
  import IC = IssuedCredentials
  import V = VerifierModel
  import VV = VerifierVerdicts
  import VA = VerifierAnswers

  // --------------------------------------------------------------- the request

  function ResponseUri(verifierUrl: string, id: string): string {
    verifierUrl + "/presentation/response?id=" + id
  }

  /** The claims of the request object that the verifier signs for a session. */
  function RequestClaims(verifierUrl: string, audience: string, id: string, nonce: string, mdoc: bool, dcql: Json): Payload {
    map["client_id" := Str(verifierUrl), "aud" := Str(audience), "nonce" := Str(nonce), "response_type" := Str("vp_token"),
        "response_mode" := Str("direct_post"), "response_uri" := Str(ResponseUri(verifierUrl, id)),
        "format" := Str(if mdoc then "mso_mdoc" else "dc+sd-jwt"), "dcql_query" := dcql]
  }

  /** The request object signed at second `t`, and the payload that opening it gives. */
  function SignedClaims(claims: Payload, t: int): Payload {
    claims["iat" := Num(t)]["exp" := Num(t + 120)]
  }

  /** One request as the wallet meets it. */
  datatype Setting = Setting(
    env: W.Env, wallet: W.Config, verifierUrl: string, verifierKey: PrivateKey, id: string, nonce: string, mdoc: bool, dcql: Json, query: W.Query,
    signedAt: int, requestUri: string, entry: nat)

  function ClaimsOf(g: Setting): Payload {
    SignedClaims(RequestClaims(g.verifierUrl, g.wallet.walletAudience, g.id, g.nonce, g.mdoc, g.dcql), g.signedAt)
  }

  function JwtOf(g: Setting): string {
    g.env.suite.sign(g.verifierKey, "oauth-authz-req+jwt", ClaimsOf(g))
  }

  /** It is what the verifier's library signs. */
  lemma JwtIsSigned(g: Setting)
    ensures JwtOf(g) == RO.SignRequestObject(g.env.suite, g.verifierKey, RequestClaims(g.verifierUrl, g.wallet.walletAudience, g.id, g.nonce, g.mdoc, g.dcql), g.signedAt)
  {
  }

  /** What the request asks of the wallet. */
  function RequestOf(g: Setting): W.VerifiedRequest {
    W.VerifiedRequest(g.verifierUrl, g.nonce, ResponseUri(g.verifierUrl, g.id), g.mdoc, g.query)
  }

  /** A GET of this URL is answered at once, with this text. */
  ghost predicate Serves(site: Site, server: Server, url: string, text: string) {
    site.safe(url) && server([Request(url, W.GET)]).Reply? && 200 <= server([Request(url, W.GET)]).status < 300 && server([Request(url, W.GET)]).text == text
  }

  /** This entry of the wallet's list is the first with the verifier's origin, and all before it are URLs. */
  ghost predicate TrustedFirst(site: Site, origins: seq<string>, verifierUrl: string, n: nat) {
    && n < |origins| && site.origin(verifierUrl).Some? && site.origin(origins[n]) == site.origin(verifierUrl)
    && forall m :: 0 <= m < n ==> site.origin(origins[m]).Some? && site.origin(origins[m]) != site.origin(verifierUrl)
  }

  /** The network works, the verifier is one that the wallet trusts, and its servers answer as the program's do. */
  ghost predicate Honest(g: Setting, servers: (Server, Server)) {
    && TrustedFirst(g.env.site, g.wallet.trustedVerifierOrigins, g.verifierUrl, g.entry) && g.verifierUrl != ""
    && g.env.query(ClaimsOf(g)) == Some(g.query)
    && g.env.site.safe(ResponseUri(g.verifierUrl, g.id)) && g.env.site.origin(ResponseUri(g.verifierUrl, g.id)) == g.env.site.origin(g.verifierUrl)
    && (exists text :: Serves(g.env.site, servers.0, g.requestUri, text) && |text| <= 1_048_576
                       && g.env.parseJson(text) == Some(Obj(map["request" := Str(JwtOf(g))])))
    && (exists text, more :: Serves(g.env.site, servers.1, g.wallet.trustedVerifierOrigins[g.entry] + "/jwks.json", text)
                             && g.env.parseJson(text) == Some(Obj(map["keys" := Arr([g.env.suite.publicJwk(g.verifierKey)] + more)])))
  }

  lemma ServedAtOnce(site: Site, server: Server, url: string, text: string)
    requires Serves(site, server, url, text)
    ensures var (outcome, log) := Fetch(site, server, url, W.GET);
            outcome.Response? && outcome.reply.Reply? && outcome.reply.text == text && log == [Request(url, W.GET)]
  {
    assert [] + [Request(url, W.GET)] == [Request(url, W.GET)];
  }

  lemma {:induction false} FindsTheEntry(site: Site, origins: seq<string>, verifierUrl: string, n: nat)
    requires TrustedFirst(site, origins, verifierUrl, n)
    ensures W.FindTrusted(site, origins, site.origin(verifierUrl).value) == W.Found(origins[n])
  {
    if n > 0 {
      assert TrustedFirst(site, origins[1..], verifierUrl, n - 1) by {
        assert forall m :: 0 <= m < n - 1 ==> origins[1..][m] == origins[m + 1];
      }
      FindsTheEntry(site, origins[1..], verifierUrl, n - 1);
    }
  }

  lemma RequestFields(g: Setting)
    ensures var p := ClaimsOf(g);
            && Get(p, "client_id") == Some(Str(g.verifierUrl)) && Get(p, "aud") == Some(Str(g.wallet.walletAudience)) && Get(p, "nonce") == Some(Str(g.nonce))
            && Get(p, "response_uri") == Some(Str(ResponseUri(g.verifierUrl, g.id)))
            && (Get(p, "format") == Some(Str("mso_mdoc")) <==> g.mdoc)
            && Get(p, "iat") == Some(Num(g.signedAt)) && Get(p, "exp") == Some(Num(g.signedAt + 120)) && "nbf" !in p
  {
    assert "dc+sd-jwt"[0] != "mso_mdoc"[0];
  }

  lemma ReadAsRequested(g: Setting)
    requires g.env.query(ClaimsOf(g)) == Some(g.query)
    ensures W.ReadRequest(g.env, ClaimsOf(g)) == Some(RequestOf(g))
  {
    RequestFields(g);
    hide ClaimsOf, ResponseUri;
  }

  lemma OpensForTheWallet(g: Setting, now: int)
    requires SignaturesOpen(g.env.suite) && PayloadIsInTheText(g.env.suite) && OpenChecksTime(g.env.suite) && now < g.signedAt + 120
    ensures RO.VerifyPresentationRequest(g.env.suite, JwtOf(g), map[g.verifierUrl := g.env.suite.publicJwk(g.verifierKey)], g.wallet.walletAudience, now) ==
            RO.Verified(ClaimsOf(g))
  {
    RequestFields(g);
    var table := map[g.verifierUrl := g.env.suite.publicJwk(g.verifierKey)];
    assert Get(table, g.verifierUrl) == Some(g.env.suite.publicJwk(g.verifierKey));
    hide ClaimsOf, RO.VerifyPresentationRequest;
    RO.AcceptedWhileTimeClaimsHold(g.env.suite, g.verifierKey, ClaimsOf(g), table, g.wallet.walletAudience, now);
  }

  lemma WithoutTilde(text: string)
    requires '~' !in text
    ensures C.Parse(text).jws == text
  {
    SplitParts(text, '~');
  }

  lemma ClaimsClient(env: W.Env, jwt: string, p: Payload, clientId: string)
    requires C.Parse(jwt).jws == jwt && env.suite.peek(jwt) == Some(p) && Get(p, "client_id") == Some(Str(clientId)) && clientId != ""
    ensures W.ClaimedClient(env, jwt) == Some(clientId)
  {
    hide C.Parse;
  }

  lemma ClientClaimed(g: Setting)
    requires SignaturesOpen(g.env.suite) && PayloadIsInTheText(g.env.suite) && g.verifierUrl != ""
    ensures W.ClaimedClient(g.env, JwtOf(g)) == Some(g.verifierUrl) && JwtOf(g) != ""
  {
    assert '~' !in JwtOf(g) && JwtOf(g) != "" && g.env.suite.peek(JwtOf(g)) == Some(ClaimsOf(g)) by { hide ClaimsOf; }
    hide *;
    RequestFields(g);
    WithoutTilde(JwtOf(g));
    ClaimsClient(g.env, JwtOf(g), ClaimsOf(g), g.verifierUrl);
  }

  /** The requests that resolve the presentation request, as sent. */
  function Asking(g: Setting): seq<Request>
    requires g.entry < |g.wallet.trustedVerifierOrigins|
  {
    [Request(g.requestUri, W.GET), Request(g.wallet.trustedVerifierOrigins[g.entry] + "/jwks.json", W.GET)]
  }

  lemma RequestIsFetched(g: Setting, servers: (Server, Server))
    requires Honest(g, servers) && JwtOf(g) != ""
    ensures var (raw, log) := W.FetchJson(g.env, servers.0, g.requestUri);
            W.SignedRequest(raw) == Some(JwtOf(g)) && log == [Request(g.requestUri, W.GET)]
  {
    hide Fetch, JwtOf, ClaimsOf, Serves;
    var text :| Serves(g.env.site, servers.0, g.requestUri, text) && |text| <= 1_048_576
                && g.env.parseJson(text) == Some(Obj(map["request" := Str(JwtOf(g))]));
    ServedAtOnce(g.env.site, servers.0, g.requestUri, text);
    assert Field(Some(Obj(map["request" := Str(JwtOf(g))])), "request") == Some(Str(JwtOf(g)));
  }

  lemma KeyIsFetched(g: Setting, servers: (Server, Server))
    requires Honest(g, servers)
    ensures var entry := g.wallet.trustedVerifierOrigins[g.entry];
            && W.TrustedEntry(g.env, g.wallet, g.verifierUrl) == Some(entry)
            && FirstKey(W.PublishedJwks(g.env, servers.1, entry)) == Some(g.env.suite.publicJwk(g.verifierKey))
            && Fetch(g.env.site, servers.1, entry + "/jwks.json", W.GET).1 == [Request(entry + "/jwks.json", W.GET)]
  {
    hide Fetch, JwtOf, ClaimsOf, Serves;
    var url := g.wallet.trustedVerifierOrigins[g.entry] + "/jwks.json";
    var text, more :| Serves(g.env.site, servers.1, url, text) && g.env.parseJson(text) == Some(Obj(map["keys" := Arr([g.env.suite.publicJwk(g.verifierKey)] + more)]));
    var keys := Some(Obj(map["keys" := Arr([g.env.suite.publicJwk(g.verifierKey)] + more)]));
    ServedAtOnce(g.env.site, servers.1, url, text);
    FindsTheEntry(g.env.site, g.wallet.trustedVerifierOrigins, g.verifierUrl, g.entry);
    assert Field(keys, "keys") == Some(Arr([g.env.suite.publicJwk(g.verifierKey)] + more));
  }

  lemma Resolves(g: Setting, servers: (Server, Server), now: int, jwt: string, entry: string, jwk: Json, payload: Payload, log: seq<Request>, log': seq<Request>)
    requires W.FetchJson(g.env, servers.0, g.requestUri).1 == log && W.SignedRequest(W.FetchJson(g.env, servers.0, g.requestUri).0) == Some(jwt)
    requires W.ClaimedClient(g.env, jwt) == Some(g.verifierUrl) && W.TrustedEntry(g.env, g.wallet, g.verifierUrl) == Some(entry)
    requires FirstKey(W.PublishedJwks(g.env, servers.1, entry)) == Some(jwk) && Fetch(g.env.site, servers.1, entry + "/jwks.json", W.GET).1 == log'
    requires RO.VerifyPresentationRequest(g.env.suite, jwt, map[g.verifierUrl := jwk], g.wallet.walletAudience, now) == RO.Verified(payload)
    ensures W.ResolveRequest(g.env, g.wallet, servers, g.requestUri, now) == (Some(payload), log + log')
  {
    hide Fetch, W.FetchJson, W.SignedRequest, W.PublishedJwks, FirstKey, W.TrustedEntry, W.ClaimedClient, RO.VerifyPresentationRequest;
  }

  lemma RequestIsResolved(g: Setting, servers: (Server, Server), now: int)
    requires SignaturesOpen(g.env.suite) && PayloadIsInTheText(g.env.suite) && OpenChecksTime(g.env.suite) && Honest(g, servers)
    requires now < g.signedAt + 120
    ensures W.ResolveRequest(g.env, g.wallet, servers, g.requestUri, now) == (Some(ClaimsOf(g)), Asking(g))
  {
    var entry := g.wallet.trustedVerifierOrigins[g.entry];
    assert g.verifierUrl != "";
    hide *;
    ClientClaimed(g);
    RequestIsFetched(g, servers);
    KeyIsFetched(g, servers);
    OpensForTheWallet(g, now);
    Resolves(g, servers, now, JwtOf(g), entry, g.env.suite.publicJwk(g.verifierKey), ClaimsOf(g),
             [Request(g.requestUri, W.GET)], [Request(entry + "/jwks.json", W.GET)]);
    AskingIs(g);
  }

  lemma AskingIs(g: Setting)
    requires g.entry < |g.wallet.trustedVerifierOrigins|
    ensures Asking(g) == [Request(g.requestUri, W.GET)] + [Request(g.wallet.trustedVerifierOrigins[g.entry] + "/jwks.json", W.GET)]
  {
  }

  /** What the wallet sends when it can build a presentation: the two requests that resolve the request, and then the
      token, to the response URI of the request. */
  ghost predicate Posts(g: Setting, log: seq<Request>, token: string)
    requires g.entry < |g.wallet.trustedVerifierOrigins|
  {
    |log| >= 3 && log[..2] == Asking(g) && log[2] == Post(g, token)
  }

  function Post(g: Setting, token: string): Request {
    Request(ResponseUri(g.verifierUrl, g.id), Init("POST", map["content-type" := "application/json"], Some(g.env.vpBody(token))))
  }

  /** What the wallet returns is what the verifier answered to that POST, if it did at once. */
  ghost predicate Returns(g: Setting, server: Server, result: Option<Json>, token: string) {
    var answer := server([Post(g, token)]);
    answer.Reply? && 200 <= answer.status < 300 ==> result == g.env.parseJson(answer.text)
  }

  lemma Prepares(env: W.Env, cfg: W.Config, key: PrivateKey, credentials: seq<W.StoredCredential>, servers: (Server, Server), requestUri: string,
                 revealOverride: Option<seq<string>>, now: int, payload: Payload, r: W.VerifiedRequest, token: string, log: seq<Request>)
    requires W.ResolveRequest(env, cfg, servers, requestUri, now) == (Some(payload), log) && W.ReadRequest(env, payload) == Some(r)
    requires W.BuildPresentation(env, key, credentials, r, revealOverride, now) == Some(token)
    requires env.site.origin(r.responseUri).Some? && env.site.origin(r.responseUri) == env.site.origin(r.clientId)
    ensures W.Prepare(env, cfg, key, credentials, servers, requestUri, revealOverride, now) == (Some(W.Ready(token, r.responseUri, r.clientId)), log)
  {
    hide W.ResolveRequest, W.ReadRequest, W.BuildPresentation;
  }

  lemma PostGoesFirst(env: W.Env, cfg: W.Config, key: PrivateKey, credentials: seq<W.StoredCredential>, servers: (Server, Server, Server),
                      requestUri: string, revealOverride: Option<seq<string>>, now: int, ready: W.Ready, log: seq<Request>)
    requires W.Prepare(env, cfg, key, credentials, (servers.0, servers.1), requestUri, revealOverride, now) == (Some(ready), log)
    requires env.site.safe(ready.responseUri)
    ensures var all := W.Presentation(env, cfg, key, credentials, servers, requestUri, revealOverride, now).1;
            && |all| > |log| && all[..|log|] == log
            && all[|log|] == Request(ready.responseUri, Init("POST", map["content-type" := "application/json"], Some(env.vpBody(ready.token))))
    ensures var answer := servers.2([Request(ready.responseUri, Init("POST", map["content-type" := "application/json"], Some(env.vpBody(ready.token))))]);
            answer.Reply? && 200 <= answer.status < 300 ==>
              W.Presentation(env, cfg, key, credentials, servers, requestUri, revealOverride, now).0 == env.parseJson(answer.text)
  {
    LogIsAChain(env.site, servers.2, ready.responseUri, W.PostJson(env.vpBody(ready.token), map[]));
    AnsweredAtOnce(env.site, servers.2, ready.responseUri, W.PostJson(env.vpBody(ready.token), map[]));
    hide Fetch, W.Prepare, AllChained, Ends;
  }

  lemma AnsweredAtOnce(site: Site, server: Server, url: string, init: Init)
    requires site.safe(url)
    ensures var answer := server([Request(url, init)]); answer.Reply? && 200 <= answer.status < 300 ==> Fetch(site, server, url, init).0 == Response(answer)
  {
    assert [] + [Request(url, init)] == [Request(url, init)];
  }

  lemma BuiltIsPosted(g: Setting, servers: (Server, Server, Server), key: PrivateKey, credentials: seq<W.StoredCredential>,
                      revealOverride: Option<seq<string>>, now: int, token: string)
    requires SignaturesOpen(g.env.suite) && PayloadIsInTheText(g.env.suite) && OpenChecksTime(g.env.suite) && Honest(g, (servers.0, servers.1))
    requires now < g.signedAt + 120
    requires W.BuildPresentation(g.env, key, credentials, RequestOf(g), revealOverride, now) == Some(token)
    ensures Posts(g, W.Presentation(g.env, g.wallet, key, credentials, servers, g.requestUri, revealOverride, now).1, token)
    ensures Returns(g, servers.2, W.Presentation(g.env, g.wallet, key, credentials, servers, g.requestUri, revealOverride, now).0, token)
  {
    HonestReply(g, (servers.0, servers.1));
    hide *;
    RequestIsResolved(g, (servers.0, servers.1), now);
    ReadAsRequested(g);
    Prepares(g.env, g.wallet, key, credentials, (servers.0, servers.1), g.requestUri, revealOverride, now, ClaimsOf(g), RequestOf(g), token, Asking(g));
    PostGoesFirst(g.env, g.wallet, key, credentials, servers, g.requestUri, revealOverride, now,
                  W.Ready(token, ResponseUri(g.verifierUrl, g.id), g.verifierUrl), Asking(g));
    PostedIs(g, W.Presentation(g.env, g.wallet, key, credentials, servers, g.requestUri, revealOverride, now).1, token);
    ReturnedIs(g, servers.2, W.Presentation(g.env, g.wallet, key, credentials, servers, g.requestUri, revealOverride, now).0, token);
  }

  lemma ReturnedIs(g: Setting, server: Server, result: Option<Json>, token: string)
    requires var answer := server([Request(ResponseUri(g.verifierUrl, g.id), Init("POST", map["content-type" := "application/json"], Some(g.env.vpBody(token))))]);
             answer.Reply? && 200 <= answer.status < 300 ==> result == g.env.parseJson(answer.text)
    ensures Returns(g, server, result, token)
  {
  }

  lemma HonestReply(g: Setting, servers: (Server, Server))
    requires Honest(g, servers)
    ensures g.entry < |g.wallet.trustedVerifierOrigins| && g.env.query(ClaimsOf(g)) == Some(g.query) && g.env.site.safe(ResponseUri(g.verifierUrl, g.id))
    ensures var r := RequestOf(g);
            && r.responseUri == ResponseUri(g.verifierUrl, g.id) && r.clientId == g.verifierUrl
            && g.env.site.origin(r.responseUri).Some? && g.env.site.origin(r.responseUri) == g.env.site.origin(r.clientId)
  {
    hide JwtOf, ClaimsOf, ResponseUri;
  }

  lemma PostedIs(g: Setting, log: seq<Request>, token: string)
    requires g.entry < |g.wallet.trustedVerifierOrigins| && |log| > |Asking(g)| && log[..|Asking(g)|] == Asking(g)
    requires log[|Asking(g)|] == Request(ResponseUri(g.verifierUrl, g.id), Init("POST", map["content-type" := "application/json"], Some(g.env.vpBody(token))))
    ensures Posts(g, log, token)
  {
  }

  // ------------------------------------------------------------------- the PID

  /** What the wallet can be asked to hold of a PID: the text answered under this index, for this holder. */
  function PidText(cfg: V.Config, issuer: I.Config, key: PrivateKey, idx: nat, holder: PrivateKey, t0: int, salts: seq<string>): string
    requires |salts| == |IC.PidClaims()|
  {
    S.Issue(cfg.suite, key, IC.PidIssuance(issuer.issuerUrl, idx, cfg.suite.publicJwk(holder), t0, salts))
  }

  /** What the verifier makes of a PID of which this was asked and let through. */
  function PidChecked(issuer: I.Config, idx: nat, query: W.Query, revealOverride: Option<seq<string>>): V.Checked {
    V.Checked(V.Verdict(true, Obj(ST.Restrict(ST.ClaimsMap(IC.PidClaims()), W.ToReveal(query.paths, revealOverride))), []),
              Some(V.StatusRef(Some(R.StatusUri(issuer.issuerUrl)), idx)))
  }

  lemma TextBuilds(g: Setting, key: PrivateKey, credentials: seq<W.StoredCredential>, i: nat, revealOverride: Option<seq<string>>, now: int)
    requires W.FirstServing(credentials, RequestOf(g), i)
    ensures credentials[i].SdJwtVc? && credentials[i].sdJwt != "" ==>
              W.BuildPresentation(g.env, key, credentials, RequestOf(g), revealOverride, now) ==
              S.CreatePresentation(g.env.suite, credentials[i].sdJwt, key, W.ToReveal(g.query.paths, revealOverride), g.verifierUrl, g.nonce, now)
    ensures credentials[i].MsoMdoc? && credentials[i].mdoc != "" && credentials[i].docType.Some? && credentials[i].docType.value != "" ==>
              W.BuildPresentation(g.env, key, credentials, RequestOf(g), revealOverride, now) ==
              D.CreatePresentation(g.env.codecs, D.IssuedMdoc(credentials[i].docType.value, credentials[i].mdoc), key,
                                   W.GroupReveal(g.query.paths, revealOverride), g.verifierUrl, g.nonce)
  {
    W.SearchFindsTheFirst(credentials, RequestOf(g));
    assert W.Serves(credentials[i], RequestOf(g));
    hide S.CreatePresentation, D.CreatePresentation, W.FindSdJwt, W.FindMdoc, W.ToReveal, W.GroupReveal, ResponseUri;
  }

  lemma TextIsNotEmpty(cfg: V.Config, issuer: I.Config, key: PrivateKey, idx: nat, holder: PrivateKey, t0: int, salts: seq<string>)
    requires |salts| == |IC.PidClaims()|
    ensures PidText(cfg, issuer, key, idx, holder, t0, salts) != ""
  {
    var text := PidText(cfg, issuer, key, idx, holder, t0, salts);
    hide IC.PidClaims, S.CredentialPayload;
    assert text[|text| - 1] == '~';
  }

  /** A wallet whose first credential of a requested type is an answered PID posts a token for it, to the verifier's
      response URI; and the verifier, checking it for that request's nonce, finds it valid, of that issuer and index,
      disclosing exactly what was asked for and let through. */
  lemma PidIsPresented(
    g: Setting, cfg: V.Config, issuer: I.Config, key: PrivateKey, idx: nat, holder: PrivateKey, t0: int, salts: seq<string>,
    credentials: seq<W.StoredCredential>, i: nat, servers: (Server, Server, Server), revealOverride: Option<seq<string>>, now: int, checkedAt: int)
    requires DisclosuresDecode(cfg.suite) && SignaturesOpen(cfg.suite) && PayloadIsInTheText(cfg.suite) && KeysDecide(cfg.suite) && OpenChecksTime(cfg.suite)
    requires g.env.suite == cfg.suite && g.verifierUrl == cfg.verifierUrl && Honest(g, (servers.0, servers.1)) && now < g.signedAt + 120
    requires |salts| == |IC.PidClaims()| && W.FirstServing(credentials, RequestOf(g), i)
    requires credentials[i] == W.SdJwtVc(PidText(cfg, issuer, key, idx, holder, t0, salts), Some("eu.europa.ec.eudi.pid.1"))
    requires checkedAt / 1000 < t0 + 31_536_000 && checkedAt / 1000 - now <= 300 && now <= checkedAt / 1000 + 60
    ensures exists token ::
              && Posts(g, W.Presentation(g.env, g.wallet, holder, credentials, servers, g.requestUri, revealOverride, now).1, token)
              && Returns(g, servers.2, W.Presentation(g.env, g.wallet, holder, credentials, servers, g.requestUri, revealOverride, now).0, token)
              && V.Check(cfg, false, token, cfg.suite.publicJwk(key), g.nonce, checkedAt) == Some(PidChecked(issuer, idx, g.query, revealOverride))
              && V.NamedIssuer(cfg, false, token) == Some(Some(issuer.issuerUrl))
  {
    IC.AnsweredPidServesItsHolder(cfg, issuer, key, idx, holder, t0, salts, g.query.paths, revealOverride, g.nonce, now, checkedAt);
    TextBuilds(g, holder, credentials, i, revealOverride, now);
    TextIsNotEmpty(cfg, issuer, key, idx, holder, t0, salts);
    hide V.Check, V.NamedIssuer, S.CreatePresentation, S.Issue, W.BuildPresentation, W.Presentation, Honest, IC.PidIssuance, IC.PidClaims, Posts, Returns, W.FirstServing, RequestOf, W.ToReveal, ST.Restrict;
    var token := S.CreatePresentation(cfg.suite, PidText(cfg, issuer, key, idx, holder, t0, salts), holder, W.ToReveal(g.query.paths, revealOverride), cfg.verifierUrl, g.nonce, now).value;
    BuiltIsPosted(g, servers, holder, credentials, revealOverride, now, token);
  }

  // ------------------------------------------------------------------- the mDL

  function MdlText(cfg: V.Config, issuer: I.Config, key: PrivateKey, idx: nat, device: D.CoseKey, t0: int, salts: nat -> D.Bytes): string {
    D.Issue(cfg.codecs, key, IC.MdlIssuance(issuer.issuerUrl, idx, device, t0, salts)).issuerSigned
  }

  function MdlChecked(issuer: I.Config, idx: nat, query: W.Query, revealOverride: Option<seq<string>>): V.Checked {
    V.Checked(V.Verdict(true, Q.AsObject(DT.Restrict(DT.ClaimsOf([IC.MdlElements()]), W.GroupReveal(query.paths, revealOverride))), []),
              Some(V.StatusRef(Some(R.StatusUri(issuer.issuerUrl)), idx)))
  }

  /** Likewise for an answered mDL: in the year of its validity, unless the response grew past 1 MiB. */
  lemma MdlIsPresented(
    g: Setting, cfg: V.Config, issuer: I.Config, key: PrivateKey, idx: nat, holder: PrivateKey, device: D.CoseKey, t0: int, salts: nat -> D.Bytes,
    credentials: seq<W.StoredCredential>, i: nat, servers: (Server, Server, Server), revealOverride: Option<seq<string>>, now: int, checkedAt: int)
    requires SignaturesOpen(cfg.suite) && PayloadIsInTheText(cfg.suite) && OpenChecksTime(cfg.suite)
    requires D.CodecsDecode(cfg.codecs) && D.ContainersAreLonger(cfg.codecs) && D.DigestsCollisionFree(cfg.codecs) && D.SignaturesVerify(cfg.codecs)
    requires D.CoseOfJwk(cfg.codecs, cfg.codecs.publicJwk(key)).Some? && D.CoseOfJwk(cfg.codecs, cfg.codecs.publicJwk(holder)) == Some(device)
    requires g.env.suite == cfg.suite && g.env.codecs == cfg.codecs && g.verifierUrl == cfg.verifierUrl && Honest(g, (servers.0, servers.1))
    requires now < g.signedAt + 120 && W.FirstServing(credentials, RequestOf(g), i)
    requires credentials[i] == W.MsoMdoc(MdlText(cfg, issuer, key, idx, device, t0, salts), Some("org.iso.18013.5.1.mDL")) && credentials[i].mdoc != ""
    requires t0 <= checkedAt / 1000 <= t0 + 31_536_000
    ensures exists token ::
              && Posts(g, W.Presentation(g.env, g.wallet, holder, credentials, servers, g.requestUri, revealOverride, now).1, token)
              && Returns(g, servers.2, W.Presentation(g.env, g.wallet, holder, credentials, servers, g.requestUri, revealOverride, now).0, token)
              && V.Check(cfg, true, token, cfg.codecs.publicJwk(key), g.nonce, checkedAt) ==
                 if |cfg.codecs.fromText(token)| > 1_048_576 then None else Some(MdlChecked(issuer, idx, g.query, revealOverride))
  {
    IC.AnsweredMdlServesItsHolder(cfg, issuer, key, idx, holder, device, t0, salts, g.query.paths, revealOverride, g.nonce, checkedAt);
    TextBuilds(g, holder, credentials, i, revealOverride, now);
    IssuedAs(cfg, issuer, key, idx, device, t0, salts);
    hide V.Check, D.CreatePresentation, D.Issue, W.BuildPresentation, W.Presentation, Honest, IC.MdlIssuance, IC.MdlElements, Posts, Returns, W.FirstServing, RequestOf, W.GroupReveal, DT.Restrict, DT.ClaimsOf, Q.AsObject;
    var token := D.CreatePresentation(cfg.codecs, D.Issue(cfg.codecs, key, IC.MdlIssuance(issuer.issuerUrl, idx, device, t0, salts)), holder,
                                      W.GroupReveal(g.query.paths, revealOverride), cfg.verifierUrl, g.nonce).value;
    BuiltIsPosted(g, servers, holder, credentials, revealOverride, now, token);
  }

  lemma IssuedAs(cfg: V.Config, issuer: I.Config, key: PrivateKey, idx: nat, device: D.CoseKey, t0: int, salts: nat -> D.Bytes)
    ensures D.Issue(cfg.codecs, key, IC.MdlIssuance(issuer.issuerUrl, idx, device, t0, salts)) ==
            D.IssuedMdoc("org.iso.18013.5.1.mDL", MdlText(cfg, issuer, key, idx, device, t0, salts))
  {
  }

  // ------------------------------------------------------------ at the verifier

  /** The positions of an undisturbed handler: it took up the token posted for the session opened at `k`, was given the
      issuer's key, verified, and read the status from a list of that issuer. */
  ghost predicate Handled(cfg: V.Config, key: Json, log: seq<V.Entry>, k: nat, p: nat, t: nat, v: nat, f: nat, r: nat, q: nat, token: string, list: string) {
    && VA.KeyCame(log, k, p, t, q) && t < v < f < r < |log|
    && log[p].event.vpToken == token && log[t].event.key.jwk == key
    && log[v].event == V.PresentationVerified(q) && log[f].event == V.StatusFetched(q, Some(list)) && log[r].event == V.StatusRead(q)
    && VV.ServedOnlyAt(log, q, t, v, {}) && VV.ServedOnlyAt(log, q, v, f, {}) && VV.ServedOnlyAt(log, q, f, r, {})
  }

  /** The list was published by the issuer at a position before which the index was not revoked, and has not expired. */
  ghost predicate CurrentList(cfg: V.Config, issuer: I.Config, key: PrivateKey, issued: seq<I.Timed>, j: int, idx: int, list: string, t: int) {
    && (forall i :: i < j ==> !R.RevokedAt(I.Run(issuer, issued).1, i, idx))
    && exists built, ttl :: t < built + ttl && R.BuiltAt(cfg, issuer, key, I.Run(issuer, issued).1, j, list, built, ttl)
  }

  /** A token that checks out, for an index that its issuer has not revoked, ends in a verdict without any error but the
      paths that are missing of what it discloses. */
  lemma {:induction false} CheckedIsAccepted(
    cfg: V.Config, input: seq<V.Timed>, k: nat, p: nat, t: nat, v: nat, f: nat, r: nat, q: nat, token: string, list: string,
    issuer: I.Config, key: PrivateKey, issued: seq<I.Timed>, j: int, idx: nat, disclosed: Json)
    requires SignaturesOpen(cfg.suite) && L.InflateUndoesDeflate(cfg.lists) && |input| == |V.Run(cfg, input).1|
    requires Handled(cfg, cfg.suite.publicJwk(key), V.Run(cfg, input).1, k, p, t, v, f, r, q, token, list)
    requires VA.CheckAt(cfg, V.Run(cfg, input).1, k, p, t, v, q) ==
             Some(V.Checked(V.Verdict(true, disclosed, []), Some(V.StatusRef(Some(R.StatusUri(issuer.issuerUrl)), idx))))
    requires VA.NamesIssuer(cfg, V.Run(cfg, input).1[k].event.mdoc, token, issuer.issuerUrl)
    requires idx < 1024 && CurrentList(cfg, issuer, key, issued, j, idx, list, input[r].now / 1000)
    ensures var log := V.Run(cfg, input).1;
            var missing := Q.Missing(if log[k].event.mdoc then cfg.mdocPaths else cfg.sdJwtPaths, disclosed);
            log[r].response == V.Result(V.Verdict(missing == [], disclosed, if missing == [] then [] else [V.DcqlNotSatisfied(missing)]))
  {
    var log := V.Run(cfg, input).1;
    OneName(cfg, log[k].event.mdoc, token, issuer.issuerUrl);
    VA.LogIsInput(cfg, input);
    CleanVerdict(cfg, log[k].event.mdoc, disclosed);
    hide V.Run, I.Run, V.Check, VV.ServedOnlyAt, VA.TakenUp, L.ReadStatus, R.RevokedAt, R.BuiltAt, VA.NamesIssuer, VA.IsVerdict, SignaturesOpen, L.InflateUndoesDeflate;
    VA.CheckAnsweredExactly(cfg, input, k, p, t, v, q);
    assert VA.CheckPassed(cfg, log, k, p, t, v, q);
    VA.FetchAnsweredExactly(cfg, input, k, p, t, v, f, q, Some(list));
    assert VA.ListCame(cfg, log, k, p, t, v, f, q);
    VA.StatusAnsweredExactly(cfg, input, k, p, t, v, f, r, q);
    var built, ttl :| input[r].now / 1000 < built + ttl && R.BuiltAt(cfg, issuer, key, I.Run(issuer, issued).1, j, list, built, ttl);
    R.UnrevokedReadsValid(cfg, issuer, key, issued, j, idx, list, built, ttl, input[r].now / 1000);
    hide VA.KeyCame, VA.CheckPassed, VA.ListCame, VA.CheckAt, Q.Missing;
  }

  lemma CleanVerdict(cfg: V.Config, mdoc: bool, disclosed: Json)
    ensures var missing := Q.Missing(if mdoc then cfg.mdocPaths else cfg.sdJwtPaths, disclosed);
            forall v :: VA.IsVerdict(cfg, mdoc, V.Verdict(true, disclosed, []), Some(0), v) ==>
              v == V.Verdict(missing == [], disclosed, if missing == [] then [] else [V.DcqlNotSatisfied(missing)])
  {
    hide Q.Missing;
  }

  /** A presentation names one issuer. */
  lemma OneName(cfg: V.Config, mdoc: bool, token: string, issuer: string)
    requires VA.NamesIssuer(cfg, mdoc, token, issuer)
    ensures forall other :: VA.NamesIssuer(cfg, mdoc, token, other) ==> other == issuer
  {
  }

  /** A POST body tells which token it carries. */
  ghost predicate BodiesTell(env: W.Env) {
    forall a, b :: env.vpBody(a) == env.vpBody(b) ==> a == b
  }

  /** From the wallet's `present` to the verdict: the nonce is the one of the session opened at `k`, the token is what the
      wallet posted for it, and the index was not revoked before the list was published. The verdict is valid exactly when
      the holder let every requested claim through that the PID holds, and discloses just that. */
  lemma {:induction false} PidIsAccepted(
    g: Setting, cfg: V.Config, issuer: I.Config, key: PrivateKey, idx: nat, holder: PrivateKey, t0: int, salts: seq<string>,
    credentials: seq<W.StoredCredential>, i: nat, servers: (Server, Server, Server), revealOverride: Option<seq<string>>, now: int,
    input: seq<V.Timed>, k: nat, p: nat, t: nat, v: nat, f: nat, r: nat, q: nat, token: string, list: string, issued: seq<I.Timed>, j: int)
    requires DisclosuresDecode(cfg.suite) && SignaturesOpen(cfg.suite) && PayloadIsInTheText(cfg.suite) && KeysDecide(cfg.suite) && OpenChecksTime(cfg.suite)
    requires L.InflateUndoesDeflate(cfg.lists) && BodiesTell(g.env)
    requires g.env.suite == cfg.suite && g.verifierUrl == cfg.verifierUrl && Honest(g, (servers.0, servers.1)) && now < g.signedAt + 120
    requires |salts| == |IC.PidClaims()| && W.FirstServing(credentials, RequestOf(g), i)
    requires credentials[i] == W.SdJwtVc(PidText(cfg, issuer, key, idx, holder, t0, salts), Some("eu.europa.ec.eudi.pid.1"))
    requires Posts(g, W.Presentation(g.env, g.wallet, holder, credentials, servers, g.requestUri, revealOverride, now).1, token)
    requires Handled(cfg, cfg.suite.publicJwk(key), V.Run(cfg, input).1, k, p, t, v, f, r, q, token, list)
    requires V.Run(cfg, input).1[k].event.newNonce == g.nonce && !V.Run(cfg, input).1[k].event.mdoc
    requires var checkedAt := V.Run(cfg, input).1[v].now / 1000; checkedAt < t0 + 31_536_000 && checkedAt - now <= 300 && now <= checkedAt + 60
    requires idx < 1024 && CurrentList(cfg, issuer, key, issued, j, idx, list, input[r].now / 1000)
    ensures var disclosed := Obj(ST.Restrict(ST.ClaimsMap(IC.PidClaims()), W.ToReveal(g.query.paths, revealOverride)));
            var missing := Q.Missing(cfg.sdJwtPaths, disclosed);
            V.Run(cfg, input).1[r].response == V.Result(V.Verdict(missing == [], disclosed, if missing == [] then [] else [V.DcqlNotSatisfied(missing)]))
  {
    var log := V.Run(cfg, input).1;
    PidIsPresented(g, cfg, issuer, key, idx, holder, t0, salts, credentials, i, servers, revealOverride, now, log[v].now);
    var disclosed := Obj(ST.Restrict(ST.ClaimsMap(IC.PidClaims()), W.ToReveal(g.query.paths, revealOverride)));
    var requests := W.Presentation(g.env, g.wallet, holder, credentials, servers, g.requestUri, revealOverride, now).1;
    var posted :| Posts(g, requests, posted)
      && V.Check(cfg, false, posted, cfg.suite.publicJwk(key), g.nonce, log[v].now) == Some(PidChecked(issuer, idx, g.query, revealOverride))
      && V.NamedIssuer(cfg, false, posted) == Some(Some(issuer.issuerUrl));
    SameToken(g, requests, posted, token);
    VA.NamedExactly(cfg, false, token);
    CheckIs(cfg, log, k, p, t, v, f, r, q, cfg.suite.publicJwk(key), token, list);
    hide V.Run, I.Run, V.Check, V.NamedIssuer, VA.NamesIssuer, Posts, Returns, Handled, CurrentList, Honest, IC.PidClaims, ST.Restrict, W.ToReveal, VA.CheckAt, SignaturesOpen, PayloadIsInTheText, Q.Missing;
    CheckedIsAccepted(cfg, input, k, p, t, v, f, r, q, token, list, issuer, key, issued, j, idx, disclosed);
  }

  lemma SameToken(g: Setting, log: seq<Request>, a: string, b: string)
    requires g.entry < |g.wallet.trustedVerifierOrigins| && BodiesTell(g.env) && Posts(g, log, a) && Posts(g, log, b)
    ensures a == b
  {
    assert g.env.vpBody(a) == g.env.vpBody(b);
  }

  lemma CheckIs(cfg: V.Config, log: seq<V.Entry>, k: nat, p: nat, t: nat, v: nat, f: nat, r: nat, q: nat, key: Json, token: string, list: string)
    requires Handled(cfg, key, log, k, p, t, v, f, r, q, token, list)
    ensures VA.CheckAt(cfg, log, k, p, t, v, q) == V.Check(cfg, log[k].event.mdoc, token, key, log[k].event.newNonce, log[v].now)
  {
    hide V.Check, VV.ServedOnlyAt;
  }
}
