/** From the issuer's credential through the wallet's presentation to the verifier's status check: the verifier
    looks up exactly the status entry under which the credential was issued. */
module EndToEnd {
  import opened Basics
  import opened Crypto
  import S = SdJwt
  import ST = SdJwtTheorems
  import D = Mdoc
  import DT = MdocTheorems
  import W = Wallet
  import Q = Dcql
  import V = VerifierModel
  import VV = VerifierVerdicts
  import C = CompactForm
  import T = Trust

  /** The always-disclosed claims of a PID: the fixed ones and the status reference. */
  function WithStatus(fixed: Payload, idx: nat, uri: string): Payload {
    fixed["status" := Obj(map["status_list" := Obj(map["idx" := Num(idx), "uri" := Str(uri)])])]
  }

  lemma StatusIsVisible(s: Suite, i: S.Issuance, fixed: Payload, idx: nat, uri: string)
    requires |i.salts| == |i.cred.claims| && i.cred.alwaysDisclosed == WithStatus(fixed, idx, uri)
    ensures V.SdJwtStatus(S.VisibleClaims(S.CredentialPayload(s, i))) == Some(V.StatusRef(Some(uri), idx))
  {
    var status := Obj(map["status_list" := Obj(map["idx" := Num(idx), "uri" := Str(uri)])]);
    assert Get(i.cred.alwaysDisclosed, "status") == Some(status);
    assert Get(S.CredentialPayload(s, i), "status") == Some(status);
    assert Get(S.VisibleClaims(S.CredentialPayload(s, i)), "status") == Some(status);
    assert Get(status.o, "status_list") == Some(Obj(map["idx" := Num(idx), "uri" := Str(uri)]));
  }

  /** A PID issued under `idx`, presented by the wallet for a query and checked by the verifier for its session: valid,
      disclosing the revealed claims, with the status entry of its issuance still to read. */
  lemma PidReachesItsStatusEntry(
    cfg: V.Config, key: PrivateKey, i: S.Issuance, holder: PrivateKey, fixed: Payload, idx: nat, uri: string,
    paths: seq<Q.Path>, revealOverride: Option<seq<string>>, nonce: string, t1: int, now: int)
    requires DisclosuresDecode(cfg.suite) && SignaturesOpen(cfg.suite) && PayloadIsInTheText(cfg.suite) && KeysDecide(cfg.suite) && S.ValidIssuance(i)
    requires i.holderJwk == cfg.suite.publicJwk(holder)
    requires i.cred.alwaysDisclosed == WithStatus(fixed, idx, uri) && fixed.Keys !! {"_sd", "_sd_alg", "cnf"}
    requires TimeClaimsHold(S.CredentialPayload(cfg.suite, i), now / 1000)
    requires now / 1000 - t1 <= 300 && t1 <= now / 1000 + 60
    ensures var wanted := W.ToReveal(paths, revealOverride);
            var p := S.CreatePresentation(cfg.suite, S.Issue(cfg.suite, key, i), holder, wanted, cfg.verifierUrl, nonce, t1);
            && p.Some?
            && V.Check(cfg, false, p.value, cfg.suite.publicJwk(key), nonce, now) ==
               Some(V.Checked(V.Verdict(true, Obj(ST.Restrict(ST.ClaimsMap(i.cred.claims), wanted)), []), Some(V.StatusRef(Some(uri), idx))))
  {
    assert i.cred.alwaysDisclosed.Keys !! {"_sd", "_sd_alg", "cnf"};
    StatusIsVisible(cfg.suite, i, fixed, idx, uri);
    assert |i.salts| == |i.cred.claims|;
    hide *;
    ST.VisibleIsOf(cfg.suite, i);
    ST.RevealedClaimsArriveIntact(cfg.suite, key, i, holder, W.ToReveal(paths, revealOverride), cfg.verifierUrl, nonce, t1, now / 1000);
    var p := S.CreatePresentation(cfg.suite, S.Issue(cfg.suite, key, i), holder, W.ToReveal(paths, revealOverride), cfg.verifierUrl, nonce, t1);
    SdJwtChecked(cfg, p.value, cfg.suite.publicJwk(key), nonce, now);
  }

  /** The same for an mDL, whose status reference is in the signed security object: refused when too large, and otherwise
      valid exactly inside its validity window. */
  lemma MdlReachesItsStatusEntry(
    cfg: V.Config, key: PrivateKey, i: D.Issuance, holder: PrivateKey, idx: nat, uri: string,
    paths: seq<Q.Path>, revealOverride: Option<seq<string>>, nonce: string, now: int)
    requires D.CodecsDecode(cfg.codecs) && D.ContainersAreLonger(cfg.codecs) && D.DigestsCollisionFree(cfg.codecs)
    requires D.SignaturesVerify(cfg.codecs) && D.ValidClaims(i.cred)
    requires D.CoseOfJwk(cfg.codecs, cfg.codecs.publicJwk(key)).Some? && D.CoseOfJwk(cfg.codecs, cfg.codecs.publicJwk(holder)) == Some(i.holder)
    requires i.cred.status == Some(D.StatusRef(Some(idx), Some(uri)))
    ensures var shown := W.GroupReveal(paths, revealOverride);
            var p := D.CreatePresentation(cfg.codecs, D.Issue(cfg.codecs, key, i), holder, shown, cfg.verifierUrl, nonce);
            && p.Some?
            && var c := V.Check(cfg, true, p.value, cfg.codecs.publicJwk(key), nonce, now);
               && (c.None? <==> |cfg.codecs.fromText(p.value)| > 1_048_576)
               && (c.Some? ==>
                     (c.value.verdict.valid <==> (match i.cred.validFrom case Some(t) => t case None => i.now) <= now / 1000 <= i.now + i.cred.validityDays * 86_400))
               && (c.Some? && c.value.verdict.valid ==>
                     c == Some(V.Checked(V.Verdict(true, Q.AsObject(DT.Restrict(DT.ClaimsOf(i.cred.namespaces), shown)), []), Some(V.StatusRef(Some(uri), idx)))))
  {
    DT.IssuePresentVerify(cfg.codecs, key, i, holder, W.GroupReveal(paths, revealOverride), cfg.verifierUrl, nonce, now / 1000);
    var p := D.CreatePresentation(cfg.codecs, D.Issue(cfg.codecs, key, i), holder, W.GroupReveal(paths, revealOverride), cfg.verifierUrl, nonce);
    NoErrors(cfg, p.value, cfg.codecs.publicJwk(key), nonce, now / 1000);
    assert V.MdocStatus(i.cred.status) == Some(V.StatusRef(Some(uri), idx));
    hide *;
    MdocChecked(cfg, p.value, cfg.codecs.publicJwk(key), nonce, now);
  }

  /** What the check makes of a presentation without errors. */
  lemma SdJwtChecked(cfg: V.Config, p: string, key: Json, nonce: string, now: int)
    ensures var r := S.Verify(cfg.suite, p, key, cfg.verifierUrl, nonce, now / 1000);
            r.valid && r.errors == [] ==>
              V.Check(cfg, false, p, key, nonce, now) == Some(V.Checked(V.Verdict(true, Obj(r.disclosedClaims), []), V.SdJwtStatus(r.issuerClaims)))
  {
    hide S.Verify, V.SdJwtStatus;
    var r := S.Verify(cfg.suite, p, key, cfg.verifierUrl, nonce, now / 1000);
    assert r.errors == [] ==> V.Check(cfg, false, p, key, nonce, now).value.verdict.errors == [];
  }

  lemma MdocChecked(cfg: V.Config, p: string, key: Json, nonce: string, now: int)
    ensures var r, c := D.Verify(cfg.codecs, p, key, cfg.verifierUrl, nonce, now / 1000), V.Check(cfg, true, p, key, nonce, now);
            && (c.Some? <==> r.Some?)
            && (r.Some? ==> c.value.verdict.valid == r.value.valid)
            && (r.Some? && r.value.errors == [] ==>
                  c == Some(V.Checked(V.Verdict(r.value.valid, Q.AsObject(r.value.disclosedClaims), []), V.MdocStatus(r.value.status))))
  {
    hide D.Verify, Q.AsObject, V.MdocStatus;
    var r := D.Verify(cfg.codecs, p, key, cfg.verifierUrl, nonce, now / 1000);
    assert r.Some? && r.value.errors == [] ==> V.Check(cfg, true, p, key, nonce, now).value.verdict.errors == [];
  }

  lemma NoErrors(cfg: V.Config, p: string, key: Json, nonce: string, t: int)
    ensures var r := D.Verify(cfg.codecs, p, key, cfg.verifierUrl, nonce, t); r.Some? && r.value.valid ==> r.value.errors == []
  {
    hide D.Scan, D.OpenMso, D.OpenDeviceAuth, D.DeviceErrors, D.ValidityErrors;
  }

  // ------------------------------------------- whoever makes the presentation

  /** This text presents, in whatever way, a PID that was issued under this status entry: its JWS opens to that payload. */
  ghost predicate PresentsPid(cfg: V.Config, token: string, key: Json, t: int, i: S.Issuance, idx: nat, uri: string) {
    && |i.salts| == |i.cred.claims| && (exists fixed :: i.cred.alwaysDisclosed == WithStatus(fixed, idx, uri))
    && cfg.suite.open(C.Parse(token).jws, key, S.SD_JWT_VC_TYP, t) == Some(S.CredentialPayload(cfg.suite, i))
  }

  /** This text presents, in whatever way, an mDL that was issued under this status entry: it carries that MSO. */
  ghost predicate PresentsMdl(cfg: V.Config, token: string, key: Json, i: D.Issuance, idx: nat, uri: string) {
    && i.cred.status == Some(D.StatusRef(Some(idx), Some(uri)))
    && cfg.codecs.decResponse(cfg.codecs.fromText(token)).Some?
    && DT.CarriesMso(cfg.codecs, i, cfg.codecs.decResponse(cfg.codecs.fromText(token)).value, key)
  }

  ghost predicate Presents(cfg: V.Config, mdoc: bool, token: string, key: Json, t: int, idx: nat, uri: string) {
    if mdoc then exists i :: PresentsMdl(cfg, token, key, i, idx, uri) else exists i :: PresentsPid(cfg, token, key, t, i, idx, uri)
  }

  lemma ValidShowsVisible(s: Suite, token: string, key: Json, audience: string, nonce: string, t: int)
    requires s.open(C.Parse(token).jws, key, S.SD_JWT_VC_TYP, t).Some? && S.Verify(s, token, key, audience, nonce, t).valid
    ensures S.Verify(s, token, key, audience, nonce, t).issuerClaims == S.VisibleClaims(s.open(C.Parse(token).jws, key, S.SD_JWT_VC_TYP, t).value)
  {
  }

  lemma ValidShowsStatus(c: D.Codecs, doc: D.Document, signed: D.IssuerSigned, mso: D.Mso, audience: string, nonce: string, t: int)
    ensures D.Judge(c, doc, signed, mso, audience, nonce, t).valid ==> D.Judge(c, doc, signed, mso, audience, nonce, t).status == mso.status
  {
    hide D.Scan, D.OpenDeviceAuth, D.DeviceErrors, D.ValidityErrors;
  }

  /** Any presentation of a credential issued under an entry, when it verifies, refers to that entry: nothing the
      presenter can choose changes the index or the list. */
  lemma PresentedReachesItsStatusEntry(cfg: V.Config, mdoc: bool, token: string, key: Json, nonce: string, now: int, idx: nat, uri: string)
    requires Presents(cfg, mdoc, token, key, now / 1000, idx, uri)
    ensures var c := V.Check(cfg, mdoc, token, key, nonce, now);
            c.Some? && c.value.verdict.valid ==> c.value.status == Some(V.StatusRef(Some(uri), idx))
  {
    var c := V.Check(cfg, mdoc, token, key, nonce, now);
    if c.Some? && c.value.verdict.valid {
      if mdoc {
        var i :| PresentsMdl(cfg, token, key, i, idx, uri);
        MdlReaches(cfg, token, key, nonce, now, i, idx, uri);
      } else {
        var i :| PresentsPid(cfg, token, key, now / 1000, i, idx, uri);
        PidReaches(cfg, token, key, nonce, now, i, idx, uri);
      }
    }
    hide *;
  }

  lemma PidReaches(cfg: V.Config, token: string, key: Json, nonce: string, now: int, i: S.Issuance, idx: nat, uri: string)
    requires PresentsPid(cfg, token, key, now / 1000, i, idx, uri)
    requires var c := V.Check(cfg, false, token, key, nonce, now); c.Some? && c.value.verdict.valid
    ensures V.Check(cfg, false, token, key, nonce, now).value.status == Some(V.StatusRef(Some(uri), idx))
  {
    var fixed :| i.cred.alwaysDisclosed == WithStatus(fixed, idx, uri);
    StatusIsVisible(cfg.suite, i, fixed, idx, uri);
    hide S.Verify, S.CredentialPayload, S.VisibleClaims, V.SdJwtStatus, WithStatus;
    ValidShowsVisible(cfg.suite, token, key, cfg.verifierUrl, nonce, now / 1000);
  }

  lemma MdlReaches(cfg: V.Config, token: string, key: Json, nonce: string, now: int, i: D.Issuance, idx: nat, uri: string)
    requires PresentsMdl(cfg, token, key, i, idx, uri)
    requires var c := V.Check(cfg, true, token, key, nonce, now); c.Some? && c.value.verdict.valid
    ensures V.Check(cfg, true, token, key, nonce, now).value.status == Some(V.StatusRef(Some(uri), idx))
  {
    var doc := cfg.codecs.decResponse(cfg.codecs.fromText(token)).value;
    ValidShowsStatus(cfg.codecs, doc, doc.issuerSigned.value, D.MsoOf(cfg.codecs, i), cfg.verifierUrl, nonce, now / 1000);
    assert D.MsoOf(cfg.codecs, i).status == i.cred.status;
    hide D.Judge, D.MsoOf, D.OpenMso, Q.AsObject;
  }

  /** A handler whose presentation verifies, of a credential issued under an entry, goes on to fetch that very list for
      that very index. */
  lemma VerifiedGoesToItsList(cfg: V.Config, s: V.State, now: int, request: nat, idx: nat, uri: string)
    requires V.Wf(s) && request in s.flights && s.flights[request].stage.Verifying?
    requires var f := s.flights[request]; Presents(cfg, s.heap[f.session].mdoc, f.stage.token, f.stage.key, now / 1000, idx, uri)
    ensures var f := s.flights[request];
            var c := V.Check(cfg, s.heap[f.session].mdoc, f.stage.token, f.stage.key, s.heap[f.session].nonce, now);
            var (s', response) := V.Step(cfg, s, now, V.PresentationVerified(request));
            c.Some? && c.value.verdict.valid ==>
              && response == V.Awaiting && request in s'.flights
              && s'.flights[request].stage == V.FetchingStatus(f.stage.issuer, f.stage.key, c.value.verdict, uri, idx)
  {
    var f := s.flights[request];
    PresentedReachesItsStatusEntry(cfg, s.heap[f.session].mdoc, f.stage.token, f.stage.key, s.heap[f.session].nonce, now, idx, uri);
    hide *;
    var c := V.Check(cfg, s.heap[f.session].mdoc, f.stage.token, f.stage.key, s.heap[f.session].nonce, now);
    if c.Some? && c.value.verdict.valid {
      assert c.value == V.Checked(c.value.verdict, c.value.status);
      GoesOnToFetch(cfg, s, now, request, c.value.verdict, idx, uri);
    }
  }

  lemma GoesOnToFetch(cfg: V.Config, s: V.State, now: int, request: nat, v: V.Verdict, idx: nat, uri: string)
    requires V.Wf(s) && request in s.flights && s.flights[request].stage.Verifying? && v.valid
    requires var f := s.flights[request];
             V.Check(cfg, s.heap[f.session].mdoc, f.stage.token, f.stage.key, s.heap[f.session].nonce, now) ==
             Some(V.Checked(v, Some(V.StatusRef(Some(uri), idx))))
    ensures var f := s.flights[request];
            V.Step(cfg, s, now, V.PresentationVerified(request)) ==
            (s.(flights := s.flights[request := V.Flight(f.session, V.FetchingStatus(f.stage.issuer, f.stage.key, v, uri, idx))]), V.Awaiting)
  {
    hide V.Check;
  }

  // ------------------------------------------------------- whose key it was

  /** The verifier's keys are the answers of its trust resolver: each key that a handler was given for an issuer is one
      that some run of the resolver returned for that issuer. */
  ghost predicate KeysFromResolver(cfg: V.Config, log: seq<V.Entry>, resolver: seq<T.Entry>) {
    forall q, h :: VV.GotKey(cfg, log, q, h) ==>
      exists m :: 0 <= m < |resolver| && resolver[m].response == T.KeyFor(VV.IssuerOf(cfg, log, q, h), VV.KeyOf(cfg, log, q, h))
  }

  /** Every verdict then rests on a key that the resolver received from the metadata of the trusted issuer named, less
      than five minutes before it returned it. */
  lemma VerdictsUseVouchedKeys(cfg: V.Config, input: seq<V.Timed>, i: nat, asked: seq<T.Timed>)
    requires i < |input| && V.Run(cfg, input).1[i].response.Result?
    requires KeysFromResolver(cfg, V.Run(cfg, input).1, T.Run(cfg.trusted, asked).1)
    ensures var log, resolver := V.Run(cfg, input).1, T.Run(cfg.trusted, asked).1;
            exists q: nat, h, end: nat, m: nat ::
              && VV.Explains(cfg, log, i, q, h, end) && VV.GotKey(cfg, log, q, h)
              && T.Vouched(cfg.trusted, resolver, m, VV.IssuerOf(cfg, log, q, h), VV.KeyOf(cfg, log, q, h))
  {
    VV.ResultsAreSound(cfg, input, i);
    var log, resolver := V.Run(cfg, input).1, T.Run(cfg.trusted, asked).1;
    var q: nat, h, end: nat :| VV.Explains(cfg, log, i, q, h, end);
    ExplainedGotKey(cfg, log, i, q, h, end);
    hide V.Run, T.Run, VV.Explains, VV.GotKey, T.Vouched;
    var m :| 0 <= m < |resolver| && resolver[m].response == T.KeyFor(VV.IssuerOf(cfg, log, q, h), VV.KeyOf(cfg, log, q, h));
    T.ReturnedKeysAreTrustedAndFresh(cfg.trusted, asked, m);
  }

  lemma ExplainedGotKey(cfg: V.Config, log: seq<V.Entry>, i: nat, q: nat, h: VV.Trail, end: nat)
    requires i < |log| && log[i].response.Result? && VV.Explains(cfg, log, i, q, h, end)
    ensures VV.GotKey(cfg, log, q, h)
  {
    hide VV.GotKey, VV.CheckOf, VV.SaysSo;
  }
}
