/** What the issuer's credential answers hold, and what becomes of them at a verifier: the credential answered under a
    status index refers to that index, serves its holder, and is never valid once that index was revoked. */
module IssuedCredentials {
  import opened Basics
  import opened Crypto
  import C = CompactForm
  import S = SdJwt
  import ST = SdJwtTheorems
  import D = Mdoc
  import DT = MdocTheorems
  import I = IssuerModel
  import E = EndToEnd
  import R = Revocation
  import L = StatusLists
  import W = Wallet
  import Q = Dcql
  import V = VerifierModel
  import VV = VerifierVerdicts
  import VA = VerifierAnswers

  // ------------------------------------------------------------ the two documents

  /** The selectively disclosable claims of the PID. */
  function PidClaims(): seq<(string, Json)> {
    [("given_name", Str("Toni")), ("family_name", Str("Bergholm")), ("birthdate", Str("1985-04-12")), ("nationality", Str("FI")),
     ("age_over_18", Bool(true))]
  }

  function PidFixed(): Payload {
    map["issuing_country" := Str("FI"), "issuing_authority" := Str("DVV (demo)")]
  }

  /** The PID answered under `idx`: the status reference joins the fixed claims. */
  function PidIssuance(issuerUrl: string, idx: nat, holderJwk: Json, now: int, salts: seq<string>): S.Issuance {
    S.Issuance(issuerUrl, holderJwk,
               S.CredentialClaims("eu.europa.ec.eudi.pid.1", PidClaims(), E.WithStatus(PidFixed(), idx, R.StatusUri(issuerUrl)), 31_536_000),
               now, salts)
  }

  function MdlElements(): D.Elements {
    D.Elements("org.iso.18013.5.1",
               [("family_name", Str("Bergholm")), ("given_name", Str("Toni")), ("birth_date", Str("1985-04-12")),
                ("document_number", Str("X1234567")), ("issuing_country", Str("FI")), ("age_over_18", Bool(true))])
  }

  /** The mDL answered under `idx`: the status reference is in the signed security object. */
  function MdlIssuance(issuerUrl: string, idx: nat, holder: D.CoseKey, now: int, salts: nat -> D.Bytes): D.Issuance {
    D.Issuance(holder,
               D.MdocClaims("org.iso.18013.5.1.mDL", [MdlElements()], 365, Some(D.StatusRef(Some(idx), Some(R.StatusUri(issuerUrl)))), None),
               now, salts)
  }

  lemma PidIsWellFormed(issuerUrl: string, idx: nat, holderJwk: Json, now: int, salts: seq<string>)
    requires |salts| == |PidClaims()|
    ensures S.ValidIssuance(PidIssuance(issuerUrl, idx, holderJwk, now, salts)) && PidFixed().Keys !! {"_sd", "_sd_alg", "cnf"}
  {
    var names := PidClaims();
    assert names[0].0[0] == 'g' && names[1].0[0] == 'f' && names[2].0[0] == 'b' && names[3].0[0] == 'n' && names[4].0[0] == 'a';
    assert forall k :: k in PidFixed().Keys ==> k[0] == 'i';
  }

  lemma MdlIsWellFormed(issuerUrl: string, idx: nat, holder: D.CoseKey, now: int, salts: nat -> D.Bytes)
    ensures D.ValidClaims(MdlIssuance(issuerUrl, idx, holder, now, salts).cred)
  {
    var e := MdlElements().entries;
    assert e[0].0[0] == 'f' && e[1].0[0] == 'g' && e[2].0[0] == 'b' && e[3].0[0] == 'd' && e[4].0[0] == 'i' && e[5].0[0] == 'a';
  }

  // --------------------------------------------------------------------- answers

  /** This text is a credential of this configuration, issued under this index, for some holder, time and salts. */
  ghost predicate CredentialFor(cfg: V.Config, issuer: I.Config, key: PrivateKey, configId: I.ConfigId, idx: nat, text: string) {
    match configId
    case Pid => exists holderJwk, now, salts :: IsPid(cfg, issuer, key, idx, text, holderJwk, now, salts)
    case Mdl => exists holder, now, salts :: IsMdl(cfg, issuer, key, idx, text, holder, now, salts)
    case Unknown(_) => false
  }

  ghost predicate IsPid(cfg: V.Config, issuer: I.Config, key: PrivateKey, idx: nat, text: string, holderJwk: Json, now: int, salts: seq<string>) {
    |salts| == |PidClaims()| && text == S.Issue(cfg.suite, key, PidIssuance(issuer.issuerUrl, idx, holderJwk, now, salts))
  }

  ghost predicate IsMdl(cfg: V.Config, issuer: I.Config, key: PrivateKey, idx: nat, text: string, holder: D.CoseKey, now: int, salts: nat -> D.Bytes) {
    text == D.Issue(cfg.codecs, key, MdlIssuance(issuer.issuerUrl, idx, holder, now, salts)).issuerSigned
  }

  /** The issuer's answer at position `m` is a credential under this index, with this text. */
  ghost predicate AnsweredAt(cfg: V.Config, issuer: I.Config, key: PrivateKey, log: seq<I.Entry>, m: int, idx: nat, text: string) {
    && 0 <= m < |log| && log[m].response.Credential? && log[m].response.idx == idx
    && CredentialFor(cfg, issuer, key, log[m].response.configId, idx, text)
  }

  /** What is presented carries the issuer's signature of this credential, with whatever else around it. */
  ghost predicate CarriesCredential(cfg: V.Config, mdoc: bool, token: string, configId: I.ConfigId, text: string) {
    if mdoc then
      var doc, signed := cfg.codecs.decResponse(cfg.codecs.fromText(token)), cfg.codecs.decSigned(cfg.codecs.fromText(text));
      && configId == I.Mdl && doc.Some? && doc.value.issuerSigned.Some? && signed.Some?
      && doc.value.issuerSigned.value.issuerAuth == signed.value.issuerAuth
    else configId == I.Pid && C.Parse(token).jws == C.Parse(text).jws
  }

  lemma IssuedJws(s: Suite, key: PrivateKey, i: S.Issuance)
    requires SignaturesOpen(s) && DisclosuresDecode(s) && |i.salts| == |i.cred.claims|
    ensures C.Parse(S.Issue(s, key, i)).jws == s.sign(key, S.SD_JWT_VC_TYP, S.CredentialPayload(s, i))
  {
    var jws := s.sign(key, S.SD_JWT_VC_TYP, S.CredentialPayload(s, i));
    var entries := S.Entries(i.cred.claims, i.salts);
    assert S.Issue(s, key, i) == C.PresentationHead(jws, S.Encoded(s, entries)) + "";
    ST.IssueParses(s, jws, entries, "");
  }

  /** A carried PID that verifies is presented in the sense of `EndToEnd`. */
  lemma CarriedPidIsPresented(cfg: V.Config, token: string, jwk: Json, nonce: string, now: int,
                              issuer: I.Config, key: PrivateKey, idx: nat, text: string)
    requires SignaturesOpen(cfg.suite) && DisclosuresDecode(cfg.suite) && PayloadIsInTheText(cfg.suite)
    requires CredentialFor(cfg, issuer, key, I.Pid, idx, text) && CarriesCredential(cfg, false, token, I.Pid, text)
    requires var c := V.Check(cfg, false, token, jwk, nonce, now); c.Some? && c.value.verdict.valid
    ensures E.Presents(cfg, false, token, jwk, now / 1000, idx, R.StatusUri(issuer.issuerUrl))
  {
    var holderJwk, t, salts :| IsPid(cfg, issuer, key, idx, text, holderJwk, t, salts);
    var i := PidIssuance(issuer.issuerUrl, idx, holderJwk, t, salts);
    assert i.cred.alwaysDisclosed == E.WithStatus(PidFixed(), idx, R.StatusUri(issuer.issuerUrl));
    IssuedJws(cfg.suite, key, i);
    ST.ValidExactlyWhenAcceptable(cfg.suite, token, jwk, cfg.verifierUrl, nonce, now / 1000);
    var jws := C.Parse(token).jws;
    assert cfg.suite.open(jws, jwk, S.SD_JWT_VC_TYP, now / 1000).Some?;
    hide V.Check, S.Verify, S.CredentialPayload, S.Issue, E.WithStatus, PidClaims, PidFixed;
    assert cfg.suite.open(jws, jwk, S.SD_JWT_VC_TYP, now / 1000) == cfg.suite.peek(jws) == Some(S.CredentialPayload(cfg.suite, i));
    assert E.PresentsPid(cfg, token, jwk, now / 1000, i, idx, R.StatusUri(issuer.issuerUrl));
  }

  /** An mdoc that verifies has a security object that opened. */
  lemma ValidOpensMso(c: D.Codecs, token: string, jwk: Json, audience: string, nonce: string, t: int)
    requires var r := D.Verify(c, token, jwk, audience, nonce, t); r.Some? && r.value.valid
    ensures var doc := c.decResponse(c.fromText(token));
            doc.Some? && doc.value.issuerSigned.Some? && D.OpenMso(c, jwk, doc.value.issuerSigned.value.issuerAuth).Some?
  {
    hide D.Judge, D.OpenMso;
  }

  lemma OpenedIsSigned(c: D.Codecs, key: PrivateKey, i: D.Issuance, jwk: Json)
    requires D.CodecsDecode(c) && D.OpenMso(c, jwk, D.IssuerSignedOf(c, key, i).issuerAuth).Some?
    ensures D.OpenMso(c, jwk, D.IssuerSignedOf(c, key, i).issuerAuth) == Some(D.MsoOf(c, i))
  {
    assert c.untag(c.tag24(c.encMso(D.MsoOf(c, i)))) == Some(c.encMso(D.MsoOf(c, i)));
  }

  /** The same for a carried mDL. */
  lemma CarriedMdlIsPresented(cfg: V.Config, token: string, jwk: Json, nonce: string, now: int,
                              issuer: I.Config, key: PrivateKey, idx: nat, text: string)
    requires D.CodecsDecode(cfg.codecs)
    requires CredentialFor(cfg, issuer, key, I.Mdl, idx, text) && CarriesCredential(cfg, true, token, I.Mdl, text)
    requires var c := V.Check(cfg, true, token, jwk, nonce, now); c.Some? && c.value.verdict.valid
    ensures E.Presents(cfg, true, token, jwk, now / 1000, idx, R.StatusUri(issuer.issuerUrl))
  {
    var holder, t, salts :| IsMdl(cfg, issuer, key, idx, text, holder, t, salts);
    var i := MdlIssuance(issuer.issuerUrl, idx, holder, t, salts);
    assert i.cred.status == Some(D.StatusRef(Some(idx), Some(R.StatusUri(issuer.issuerUrl))));
    ValidOpensMso(cfg.codecs, token, jwk, cfg.verifierUrl, nonce, now / 1000);
    hide V.Check, D.Verify, MdlIssuance, MdlElements;
    var signed := D.IssuerSignedOf(cfg.codecs, key, i);
    assert cfg.codecs.decSigned(cfg.codecs.fromText(text)) == Some(signed);
    hide D.IssuerSignedOf, D.MsoOf, D.OpenMso, D.Issue;
    OpenedIsSigned(cfg.codecs, key, i, jwk);
    assert E.PresentsMdl(cfg, token, jwk, i, idx, R.StatusUri(issuer.issuerUrl));
  }

  /** Whatever carries an answered credential, when it verifies, refers to the index of that answer in the issuer's list. */
  lemma CarriedIsPresented(cfg: V.Config, mdoc: bool, token: string, jwk: Json, nonce: string, now: int,
                           issuer: I.Config, key: PrivateKey, log: seq<I.Entry>, m: int, idx: nat, text: string)
    requires SignaturesOpen(cfg.suite) && DisclosuresDecode(cfg.suite) && PayloadIsInTheText(cfg.suite) && D.CodecsDecode(cfg.codecs)
    requires AnsweredAt(cfg, issuer, key, log, m, idx, text) && CarriesCredential(cfg, mdoc, token, log[m].response.configId, text)
    requires var c := V.Check(cfg, mdoc, token, jwk, nonce, now); c.Some? && c.value.verdict.valid
    ensures E.Presents(cfg, mdoc, token, jwk, now / 1000, idx, R.StatusUri(issuer.issuerUrl))
    ensures V.Check(cfg, mdoc, token, jwk, nonce, now).value.status == Some(V.StatusRef(Some(R.StatusUri(issuer.issuerUrl)), idx))
  {
    hide CredentialFor, V.Check, E.Presents;
    if mdoc {
      CarriedMdlIsPresented(cfg, token, jwk, nonce, now, issuer, key, idx, text);
    } else {
      CarriedPidIsPresented(cfg, token, jwk, nonce, now, issuer, key, idx, text);
    }
    E.PresentedReachesItsStatusEntry(cfg, mdoc, token, jwk, nonce, now, idx, R.StatusUri(issuer.issuerUrl));
  }

  // ------------------------------------------------------------------ revocation

  /** The handler of this trail worked under this issuer's name and key. */
  ghost predicate UnderIssuer(cfg: V.Config, issuer: I.Config, key: PrivateKey, log: seq<V.Entry>, q: nat, h: VV.Trail) {
    && VV.WasChecked(cfg, log, q, h)
    && VV.KeyOf(cfg, log, q, h) == cfg.suite.publicJwk(key) && VV.IssuerOf(cfg, log, q, h) == issuer.issuerUrl
  }

  /** Take one run of the issuer, in which position `m` answered a credential and position `i` accepted the revocation of
      its index. Take any run of a verifier, and any verdict in it on a presentation that carries that credential. If
      the status list fetched for it was built after the revocation, the verdict is not valid; and if the list was
      read, it reports the revocation. */
  lemma {:induction false} RevokedAnswersAreNeverValid(
    issuer: I.Config, key: PrivateKey, issued: seq<I.Timed>, m: int, i: int, idx: nat, text: string,
    cfg: V.Config, input: seq<V.Timed>, n: nat, q: nat, h: VV.Trail, end: nat)
    requires SignaturesOpen(cfg.suite) && OpenChecksTime(cfg.suite) && PayloadIsInTheText(cfg.suite) && DisclosuresDecode(cfg.suite)
    requires L.InflateUndoesDeflate(cfg.lists) && D.CodecsDecode(cfg.codecs)
    requires AnsweredAt(cfg, issuer, key, I.Run(issuer, issued).1, m, idx, text) && R.RevokedAt(I.Run(issuer, issued).1, i, idx)
    requires n < |input| && V.Run(cfg, input).1[n].response.Result? && VV.Explains(cfg, V.Run(cfg, input).1, n, q, h, end)
    requires UnderIssuer(cfg, issuer, key, V.Run(cfg, input).1, q, h)
    requires var log := V.Run(cfg, input).1;
             CarriesCredential(cfg, log[h.created].event.mdoc, log[h.posted].event.vpToken, I.Run(issuer, issued).1[m].response.configId, text)
    requires VV.WasFetched(cfg, V.Run(cfg, input).1, q, h) ==>
               R.FetchedLater(cfg, issuer, key, I.Run(issuer, issued).1, i, V.Run(cfg, input).1, h)
    ensures var log := V.Run(cfg, input).1; var v := log[n].response.verdict;
            && !v.valid
            && (end == h.read && VV.WasRead(cfg, log, q, h) ==> V.CredentialRevoked in v.errors)
  {
    var log, answers := V.Run(cfg, input).1, I.Run(issuer, issued).1;
    var c := VV.CheckOf(cfg, log, q, h);
    if c.value.verdict.valid {
      var mdoc, token, jwk := log[h.created].event.mdoc, log[h.posted].event.vpToken, VV.KeyOf(cfg, log, q, h);
      var nonce, now := log[h.created].event.newNonce, log[h.verified].now;
      hide V.Run, I.Run, V.Check, AnsweredAt, CarriesCredential, R.RevokedAt, R.FetchedLater, VV.Explains, E.Presents, VV.WasFetched, VV.WasRead;
      CarriedIsPresented(cfg, mdoc, token, jwk, nonce, now, issuer, key, answers, m, idx, text);
      assert R.IssuedUnder(cfg, issuer, key, log, q, h, idx);
      hide R.IssuedUnder, VV.CheckOf, VV.WasChecked;
      R.RevokedCredentialsAreNeverValid(issuer, key, issued, i, idx, cfg, input, n, q, h, end);
    } else {
      hide V.Run, I.Run, AnsweredAt, CarriesCredential, R.RevokedAt, R.FetchedLater, VV.CheckOf;
    }
  }

  // ----------------------------------------------------------------- the holder

  lemma PresentedCarries(cfg: V.Config, issuer: I.Config, key: PrivateKey, idx: nat, holder: PrivateKey, t0: int, salts: seq<string>,
                         wanted: seq<string>, nonce: string, t1: int)
    requires DisclosuresDecode(cfg.suite) && SignaturesOpen(cfg.suite) && PayloadIsInTheText(cfg.suite) && |salts| == |PidClaims()|
    ensures var i := PidIssuance(issuer.issuerUrl, idx, cfg.suite.publicJwk(holder), t0, salts);
            var p := S.CreatePresentation(cfg.suite, S.Issue(cfg.suite, key, i), holder, wanted, cfg.verifierUrl, nonce, t1);
            && p.Some? && CarriesCredential(cfg, false, p.value, I.Pid, S.Issue(cfg.suite, key, i))
            && V.NamedIssuer(cfg, false, p.value) == Some(Some(issuer.issuerUrl))
  {
    var i := PidIssuance(issuer.issuerUrl, idx, cfg.suite.publicJwk(holder), t0, salts);
    PidIsWellFormed(issuer.issuerUrl, idx, cfg.suite.publicJwk(holder), t0, salts);
    ST.PresentationOfIssued(cfg.suite, key, i, holder, wanted, cfg.verifierUrl, nonce, t1);
    IssuedJws(cfg.suite, key, i);
    var text, p := S.Issue(cfg.suite, key, i), S.CreatePresentation(cfg.suite, S.Issue(cfg.suite, key, i), holder, wanted, cfg.verifierUrl, nonce, t1);
    assert IsPid(cfg, issuer, key, idx, text, cfg.suite.publicJwk(holder), t0, salts);
    hide PidIssuance, S.CreatePresentation, S.Issue, S.CredentialPayload, PidClaims, IsPid, V.NamedIssuer;
    CarriedPidNamesItsIssuer(cfg, p.value, issuer, key, idx, text);
  }

  /** The PID answered under an index, presented by its holder's wallet for any query, verifies and discloses exactly what
      was asked for and let through; the verifier takes it for this issuer's, and what remains to be read is that very
      index in the issuer's list. */
  lemma AnsweredPidServesItsHolder(
    cfg: V.Config, issuer: I.Config, key: PrivateKey, idx: nat, holder: PrivateKey, t0: int, salts: seq<string>,
    paths: seq<Q.Path>, revealOverride: Option<seq<string>>, nonce: string, t1: int, now: int)
    requires DisclosuresDecode(cfg.suite) && SignaturesOpen(cfg.suite) && PayloadIsInTheText(cfg.suite) && KeysDecide(cfg.suite)
    requires |salts| == |PidClaims()| && now / 1000 < t0 + 31_536_000
    requires now / 1000 - t1 <= 300 && t1 <= now / 1000 + 60
    ensures var i := PidIssuance(issuer.issuerUrl, idx, cfg.suite.publicJwk(holder), t0, salts);
            var wanted := W.ToReveal(paths, revealOverride);
            var p := S.CreatePresentation(cfg.suite, S.Issue(cfg.suite, key, i), holder, wanted, cfg.verifierUrl, nonce, t1);
            && p.Some?
            && V.Check(cfg, false, p.value, cfg.suite.publicJwk(key), nonce, now) ==
               Some(V.Checked(V.Verdict(true, Obj(ST.Restrict(ST.ClaimsMap(PidClaims()), wanted)), []),
                              Some(V.StatusRef(Some(R.StatusUri(issuer.issuerUrl)), idx))))
            && CarriesCredential(cfg, false, p.value, I.Pid, S.Issue(cfg.suite, key, i))
            && V.NamedIssuer(cfg, false, p.value) == Some(Some(issuer.issuerUrl))
  {
    var i := PidIssuance(issuer.issuerUrl, idx, cfg.suite.publicJwk(holder), t0, salts);
    PidIsWellFormed(issuer.issuerUrl, idx, cfg.suite.publicJwk(holder), t0, salts);
    PidTimes(cfg.suite, issuer.issuerUrl, idx, cfg.suite.publicJwk(holder), t0, salts, now / 1000);
    assert i.cred.claims == PidClaims() && i.holderJwk == cfg.suite.publicJwk(holder);
    assert i.cred.alwaysDisclosed == E.WithStatus(PidFixed(), idx, R.StatusUri(issuer.issuerUrl));
    PresentedCarries(cfg, issuer, key, idx, holder, t0, salts, W.ToReveal(paths, revealOverride), nonce, t1);
    hide *;
    E.PidReachesItsStatusEntry(cfg, key, i, holder, PidFixed(), idx, R.StatusUri(issuer.issuerUrl), paths, revealOverride, nonce, t1, now);
  }

  /** The mDL answered under an index, likewise: unless the response is too large it verifies exactly in the 365 days from its
      issuance, and then it discloses exactly what was asked for and let through, and refers to that very index in the
      issuer's list. */
  lemma AnsweredMdlServesItsHolder(
    cfg: V.Config, issuer: I.Config, key: PrivateKey, idx: nat, holder: PrivateKey, device: D.CoseKey, t0: int, salts: nat -> D.Bytes,
    paths: seq<Q.Path>, revealOverride: Option<seq<string>>, nonce: string, now: int)
    requires D.CodecsDecode(cfg.codecs) && D.ContainersAreLonger(cfg.codecs) && D.DigestsCollisionFree(cfg.codecs) && D.SignaturesVerify(cfg.codecs)
    requires D.CoseOfJwk(cfg.codecs, cfg.codecs.publicJwk(key)).Some? && D.CoseOfJwk(cfg.codecs, cfg.codecs.publicJwk(holder)) == Some(device)
    ensures var i := MdlIssuance(issuer.issuerUrl, idx, device, t0, salts);
            var shown := W.GroupReveal(paths, revealOverride);
            var p := D.CreatePresentation(cfg.codecs, D.Issue(cfg.codecs, key, i), holder, shown, cfg.verifierUrl, nonce);
            && p.Some?
            && var c := V.Check(cfg, true, p.value, cfg.codecs.publicJwk(key), nonce, now);
               && (c.None? <==> |cfg.codecs.fromText(p.value)| > 1_048_576)
               && (c.Some? ==> (c.value.verdict.valid <==> t0 <= now / 1000 <= t0 + 31_536_000))
               && (c.Some? && c.value.verdict.valid ==>
                     c == Some(V.Checked(V.Verdict(true, Q.AsObject(DT.Restrict(DT.ClaimsOf([MdlElements()]), shown)), []),
                                         Some(V.StatusRef(Some(R.StatusUri(issuer.issuerUrl)), idx)))))
  {
    var i := MdlIssuance(issuer.issuerUrl, idx, device, t0, salts);
    MdlIsWellFormed(issuer.issuerUrl, idx, device, t0, salts);
    assert i.holder == device && i.cred.namespaces == [MdlElements()] && i.cred.validFrom == None && i.now == t0;
    assert i.cred.validityDays * 86_400 == 31_536_000;
    assert i.cred.status == Some(D.StatusRef(Some(idx), Some(R.StatusUri(issuer.issuerUrl))));
    hide *;
    E.MdlReachesItsStatusEntry(cfg, key, i, holder, idx, R.StatusUri(issuer.issuerUrl), paths, revealOverride, nonce, now);
  }

  /** Whatever carries an answered PID names its issuer to the verifier, and no one else; so a handler that takes it up
      asks for the key of exactly that issuer. */
  lemma CarriedPidNamesItsIssuer(cfg: V.Config, token: string, issuer: I.Config, key: PrivateKey, idx: nat, text: string)
    requires SignaturesOpen(cfg.suite) && DisclosuresDecode(cfg.suite) && PayloadIsInTheText(cfg.suite)
    requires CredentialFor(cfg, issuer, key, I.Pid, idx, text) && CarriesCredential(cfg, false, token, I.Pid, text)
    ensures V.NamedIssuer(cfg, false, token) == Some(Some(issuer.issuerUrl)) && !VA.Unreadable(cfg, false, token)
    ensures forall name :: VA.NamesIssuer(cfg, false, token, name) <==> name == issuer.issuerUrl
  {
    var holderJwk, t, salts :| IsPid(cfg, issuer, key, idx, text, holderJwk, t, salts);
    var i := PidIssuance(issuer.issuerUrl, idx, holderJwk, t, salts);
    IssuedJws(cfg.suite, key, i);
    PidPayload(cfg.suite, issuer.issuerUrl, idx, holderJwk, t, salts);
    hide S.CredentialPayload, S.Issue, PidClaims, PidFixed;
  }

  lemma PidPayload(s: Suite, issuerUrl: string, idx: nat, holderJwk: Json, t: int, salts: seq<string>)
    requires |salts| == |PidClaims()|
    ensures var p := S.CredentialPayload(s, PidIssuance(issuerUrl, idx, holderJwk, t, salts));
            Get(p, "iss") == Some(Str(issuerUrl)) && Get(p, "vct") == Some(Str("eu.europa.ec.eudi.pid.1"))
  {
    var i := PidIssuance(issuerUrl, idx, holderJwk, t, salts);
    LongNames(idx, R.StatusUri(issuerUrl));
    assert i.issuer == issuerUrl && i.cred.vct == "eu.europa.ec.eudi.pid.1" && |i.salts| == |i.cred.claims|;
    assert "iss" !in i.cred.alwaysDisclosed && "vct" !in i.cred.alwaysDisclosed;
    hide *;
    PayloadNames(s, i);
  }

  lemma PayloadNames(s: Suite, i: S.Issuance)
    requires |i.salts| == |i.cred.claims| && "iss" !in i.cred.alwaysDisclosed && "vct" !in i.cred.alwaysDisclosed
    ensures Get(S.CredentialPayload(s, i), "iss") == Some(Str(i.issuer)) && Get(S.CredentialPayload(s, i), "vct") == Some(Str(i.cred.vct))
  {
    hide S.Entries, S.Sorted, S.Digests, S.Strings;
  }

  /** The step that takes it up, from any live session. */
  lemma AnsweredPidGoesToItsIssuer(cfg: V.Config, s: V.State, now: int, q: nat, id: string, token: string,
                                   issuer: I.Config, key: PrivateKey, idx: nat, text: string)
    requires SignaturesOpen(cfg.suite) && DisclosuresDecode(cfg.suite) && PayloadIsInTheText(cfg.suite)
    requires CredentialFor(cfg, issuer, key, I.Pid, idx, text) && CarriesCredential(cfg, false, token, I.Pid, text)
    requires V.Wf(s) && q !in s.flights && id in s.sessions && token != ""
    requires var p := s.heap[s.sessions[id]]; !p.mdoc && !p.consumed && now - p.createdAt <= 300_000
    ensures var (s', response) := V.Step(cfg, s, now, V.PostResponse(q, id, token));
            && response == V.Awaiting && q in s'.flights
            && s'.flights[q] == V.Flight(s.sessions[id], V.ResolvingTrust(token, Some(issuer.issuerUrl)))
  {
    CarriedPidNamesItsIssuer(cfg, token, issuer, key, idx, text);
    hide CredentialFor, CarriesCredential, V.NamedIssuer, VA.NamesIssuer;
    VA.PostAnswer(cfg, s, now, q, id, token);
  }

  /** The wallet stores the answered PID under its type. */
  lemma AnsweredPidIsStored(cfg: V.Config, env: W.Env, issuer: I.Config, key: PrivateKey, idx: nat, text: string, data: map<string, Json>)
    requires SignaturesOpen(cfg.suite) && DisclosuresDecode(cfg.suite) && PayloadIsInTheText(cfg.suite) && env.suite == cfg.suite
    requires CredentialFor(cfg, issuer, key, I.Pid, idx, text)
    requires Get(data, "credential") == Some(Str(text)) && Get(data, "format") == Some(Str("dc+sd-jwt"))
    ensures W.ReadCredential(env, Some(Obj(data))) == Some(W.SdJwtVc(text, Some("eu.europa.ec.eudi.pid.1")))
  {
    var holderJwk, t, salts :| IsPid(cfg, issuer, key, idx, text, holderJwk, t, salts);
    var i := PidIssuance(issuer.issuerUrl, idx, holderJwk, t, salts);
    IssuedJws(cfg.suite, key, i);
    PidPayload(cfg.suite, issuer.issuerUrl, idx, holderJwk, t, salts);
    assert text != "" by { assert text[|text| - 1] == '~'; }
    assert Str("dc+sd-jwt") != Str("mso_mdoc") by { assert "dc+sd-jwt"[0] != "mso_mdoc"[0]; }
    hide S.CredentialPayload, S.Issue, PidClaims, PidFixed, C.Parse;
  }

  /** And the answered mDL under its document type. */
  lemma AnsweredMdlIsStored(env: W.Env, text: string, data: map<string, Json>)
    requires text != "" && Get(data, "credential") == Some(Str(text)) && Get(data, "format") == Some(Str("mso_mdoc"))
    requires Get(data, "doctype") == Some(Str("org.iso.18013.5.1.mDL"))
    ensures W.ReadCredential(env, Some(Obj(data))) == Some(W.MsoMdoc(text, Some("org.iso.18013.5.1.mDL")))
  {
  }

  lemma PidTimes(s: Suite, issuerUrl: string, idx: nat, holderJwk: Json, t0: int, salts: seq<string>, t: int)
    requires |salts| == |PidClaims()| && t < t0 + 31_536_000
    ensures TimeClaimsHold(S.CredentialPayload(s, PidIssuance(issuerUrl, idx, holderJwk, t0, salts)), t)
  {
    var i := PidIssuance(issuerUrl, idx, holderJwk, t0, salts);
    assert |i.salts| == |i.cred.claims| && i.now == t0 && i.cred.expiresInSeconds == 31_536_000;
    LongNames(idx, R.StatusUri(issuerUrl));
    assert forall k :: k in i.cred.alwaysDisclosed ==> |k| > 3;
    hide *;
    PayloadTimes(s, i, t);
  }

  lemma LongNames(idx: nat, uri: string)
    ensures forall k :: k in E.WithStatus(PidFixed(), idx, uri) ==> |k| > 3
  {
  }

  /** A credential that expires, and whose always-disclosed names are longer than the time claims', holds until then. */
  lemma PayloadTimes(s: Suite, i: S.Issuance, t: int)
    requires |i.salts| == |i.cred.claims| && (forall k :: k in i.cred.alwaysDisclosed ==> |k| > 3)
    requires i.cred.expiresInSeconds != 0 && t < i.now + i.cred.expiresInSeconds
    ensures TimeClaimsHold(S.CredentialPayload(s, i), t)
  {
    var p := S.CredentialPayload(s, i);
    assert "nbf" !in i.cred.alwaysDisclosed && "iat" !in i.cred.alwaysDisclosed;
    hide S.Entries, S.Digests, S.Sorted, S.Strings;
    assert "nbf" !in p && p["exp"] == Num(i.now + i.cred.expiresInSeconds) && p["iat"] == Num(i.now);
  }
}
