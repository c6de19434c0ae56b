/** Revocation from the issuer's admin endpoint to a verifier's verdict, over a whole run of each. */
module Revocation {
  import opened Basics
  import opened Crypto
  import I = IssuerModel
  import IR = IssuerRuns
  import IS = IssuerServer
  import L = StatusLists
  import V = VerifierModel
  import VT = VerifierTheorems
  import VV = VerifierVerdicts
  import E = EndToEnd

  /** Where an issuer publishes its list. */
  function StatusUri(issuerUrl: string): string { issuerUrl + "/statuslist" }

  /** A token built from the list that position `j` of the issuer's run published. */
  ghost predicate BuiltAt(cfg: V.Config, issuer: I.Config, key: PrivateKey, log: seq<I.Entry>, j: int, token: string, built: int, ttl: int) {
    && 0 <= j < |log| && log[j].response.StatusList?
    && exists bytes :: IS.Packs(bytes, log[j].response.published) &&
                       token == L.BuildStatusListToken(cfg.suite, cfg.lists, key, issuer.issuerUrl, StatusUri(issuer.issuerUrl), bytes, built, ttl)
  }

  ghost predicate RevokedAt(log: seq<I.Entry>, i: int, idx: int) {
    0 <= i < |log| && log[i].response == I.Revoked(idx)
  }

  /** The bit that a token built at a later position holds for a revoked index. */
  lemma RevokedReadsInvalid(cfg: V.Config, issuer: I.Config, key: PrivateKey, input: seq<I.Timed>, i: int, j: int, idx: int,
                            token: string, built: int, ttl: int, t: int)
    requires SignaturesOpen(cfg.suite) && L.InflateUndoesDeflate(cfg.lists)
    requires RevokedAt(I.Run(issuer, input).1, i, idx) && i < j && BuiltAt(cfg, issuer, key, I.Run(issuer, input).1, j, token, built, ttl)
    requires t < built + ttl
    ensures L.ReadStatus(cfg.suite, cfg.lists, token, idx, cfg.suite.publicJwk(key), issuer.issuerUrl, StatusUri(issuer.issuerUrl), t) ==
            L.Status(L.STATUS_INVALID)
  {
    var log := I.Run(issuer, input).1;
    IR.RevokedIsHistory(issuer, input);
    IR.PublishedListsAreExact(issuer, input, j, idx);
    hide I.Run;
    var bytes :| IS.Packs(bytes, log[j].response.published) &&
                 token == L.BuildStatusListToken(cfg.suite, cfg.lists, key, issuer.issuerUrl, StatusUri(issuer.issuerUrl), bytes, built, ttl);
    assert 0 <= idx < I.STATUS_LIST_SIZE && idx in log[j].response.published;
    assert L.BitAt(bytes, idx) == 1;
    hide L.ReadStatus, L.BuildStatusListToken;
    L.ReadOfPublished(cfg.suite, cfg.lists, key, issuer.issuerUrl, StatusUri(issuer.issuerUrl), bytes, built, ttl, idx, t);
  }

  /** The converse: an index that is listed but was never revoked before reads VALID. */
  lemma UnrevokedReadsValid(cfg: V.Config, issuer: I.Config, key: PrivateKey, input: seq<I.Timed>, j: int, idx: int,
                            token: string, built: int, ttl: int, t: int)
    requires SignaturesOpen(cfg.suite) && L.InflateUndoesDeflate(cfg.lists)
    requires BuiltAt(cfg, issuer, key, I.Run(issuer, input).1, j, token, built, ttl)
    requires 0 <= idx < I.STATUS_LIST_SIZE && (forall i :: i < j ==> !RevokedAt(I.Run(issuer, input).1, i, idx)) && t < built + ttl
    ensures L.ReadStatus(cfg.suite, cfg.lists, token, idx, cfg.suite.publicJwk(key), issuer.issuerUrl, StatusUri(issuer.issuerUrl), t) ==
            L.Status(L.STATUS_VALID)
  {
    var log := I.Run(issuer, input).1;
    IR.PublishedListsAreExact(issuer, input, j, idx);
    hide I.Run;
    var bytes :| IS.Packs(bytes, log[j].response.published) &&
                 token == L.BuildStatusListToken(cfg.suite, cfg.lists, key, issuer.issuerUrl, StatusUri(issuer.issuerUrl), bytes, built, ttl);
    assert forall i :: 0 <= i < j && log[i].response == I.Revoked(idx) ==> RevokedAt(log, i, idx);
    assert idx !in log[j].response.published;
    assert L.BitAt(bytes, idx) == 0;
    hide L.ReadStatus, L.BuildStatusListToken;
    L.ReadOfPublished(cfg.suite, cfg.lists, key, issuer.issuerUrl, StatusUri(issuer.issuerUrl), bytes, built, ttl, idx, t);
  }

  /** A verifier handler is about to read this index of this issuer's list from this token. */
  ghost predicate AboutToRead(cfg: V.Config, issuer: I.Config, key: PrivateKey, s: V.State, request: nat, idx: int, token: string)
    requires V.Wf(s)
  {
    && request in s.flights && s.flights[request].stage.ReadingStatus?
    && var f := s.flights[request].stage;
       && f.issuer == issuer.issuerUrl && f.key == cfg.suite.publicJwk(key) && f.uri == StatusUri(issuer.issuerUrl)
       && f.idx == idx && f.listToken == token
  }

  lemma ReadingRevoked(cfg: V.Config, issuer: I.Config, key: PrivateKey, s: V.State, now: int, request: nat, idx: int, token: string)
    requires V.Wf(s) && AboutToRead(cfg, issuer, key, s, request, idx, token)
    requires L.ReadStatus(cfg.suite, cfg.lists, token, idx, cfg.suite.publicJwk(key), issuer.issuerUrl, StatusUri(issuer.issuerUrl), now / 1000) ==
             L.Status(L.STATUS_INVALID)
    ensures var r := V.Step(cfg, s, now, V.StatusRead(request)).1; r.Result? && !r.verdict.valid && V.CredentialRevoked in r.verdict.errors
  {
    hide L.ReadStatus;
    var v := V.WithStatus(s.flights[request].stage.verdict, L.STATUS_INVALID);
    assert v.errors[|v.errors| - 1] == V.CredentialRevoked;
  }

  lemma ReadingNothing(cfg: V.Config, issuer: I.Config, key: PrivateKey, s: V.State, now: int, request: nat, idx: int, token: string)
    requires V.Wf(s) && AboutToRead(cfg, issuer, key, s, request, idx, token)
    requires L.ReadStatus(cfg.suite, cfg.lists, token, idx, cfg.suite.publicJwk(key), issuer.issuerUrl, StatusUri(issuer.issuerUrl), now / 1000).StatusFailed?
    ensures !V.Step(cfg, s, now, V.StatusRead(request)).1.Result?
  {
    hide L.ReadStatus;
  }

  /** Once /admin/revoke has accepted an index, in any run of the issuer, no verifier run that reads it from a list
      built later ever ends in a valid result: it reports the revocation, or fails because the list expired. */
  lemma {:induction false} RevokedCredentialsAreRejected(
    issuer: I.Config, key: PrivateKey, issued: seq<I.Timed>, i: int, j: int, idx: int,
    cfg: V.Config, input: seq<V.Timed>, n: nat, request: nat, token: string, built: int, ttl: int)
    requires SignaturesOpen(cfg.suite) && L.InflateUndoesDeflate(cfg.lists)
    requires OpenChecksTime(cfg.suite) && PayloadIsInTheText(cfg.suite)
    requires RevokedAt(I.Run(issuer, issued).1, i, idx) && i < j && BuiltAt(cfg, issuer, key, I.Run(issuer, issued).1, j, token, built, ttl)
    requires n < |input| && input[n].event == V.StatusRead(request) && AboutToRead(cfg, issuer, key, V.Run(cfg, input[..n]).0, request, idx, token)
    ensures var r := V.Run(cfg, input).1[n].response;
            if input[n].now / 1000 < built + ttl then r.Result? && !r.verdict.valid && V.CredentialRevoked in r.verdict.errors
            else !r.Result?
  {
    VT.RunContinues(cfg, input, n);
    var s, now := V.Run(cfg, input[..n]).0, input[n].now;
    hide V.Run, V.Step;
    if now / 1000 < built + ttl {
      RevokedReadsInvalid(cfg, issuer, key, issued, i, j, idx, token, built, ttl, now / 1000);
      ReadingRevoked(cfg, issuer, key, s, now, request, idx, token);
    } else {
      ExpiredListsDoNotOpen(cfg, issuer, key, issued, j, token, built, ttl, now / 1000);
      ReadingNothing(cfg, issuer, key, s, now, request, idx, token);
    }
  }

  lemma ExpiredListsDoNotOpen(cfg: V.Config, issuer: I.Config, key: PrivateKey, input: seq<I.Timed>, j: int,
                              token: string, built: int, ttl: int, t: int)
    requires SignaturesOpen(cfg.suite) && PayloadIsInTheText(cfg.suite) && built + ttl <= t
    requires OpenChecksTime(cfg.suite)
    requires BuiltAt(cfg, issuer, key, I.Run(issuer, input).1, j, token, built, ttl)
    ensures cfg.suite.open(token, cfg.suite.publicJwk(key), L.STATUS_LIST_TYP, t).None?
  {
    var log := I.Run(issuer, input).1;
    hide I.Run;
    var bytes :| IS.Packs(bytes, log[j].response.published) &&
                 token == L.BuildStatusListToken(cfg.suite, cfg.lists, key, issuer.issuerUrl, StatusUri(issuer.issuerUrl), bytes, built, ttl);
    var payload := L.StatusListClaims(cfg.lists, issuer.issuerUrl, StatusUri(issuer.issuerUrl), bytes, built, ttl);
    assert TimeClaimsHold(payload, built + ttl - 1);
    assert cfg.suite.open(token, cfg.suite.publicJwk(key), L.STATUS_LIST_TYP, built + ttl - 1) == Some(payload) == cfg.suite.peek(token);
    assert !TimeClaimsHold(payload, t);
  }

  // ----------------------------------------------- from the presented credential

  /** The presentation that this trail is about is of a credential that this issuer issued under this index. */
  ghost predicate IssuedUnder(cfg: V.Config, issuer: I.Config, key: PrivateKey, log: seq<V.Entry>, q: nat, h: VV.Trail, idx: nat) {
    && VV.WasChecked(cfg, log, q, h)
    && VV.KeyOf(cfg, log, q, h) == cfg.suite.publicJwk(key) && VV.IssuerOf(cfg, log, q, h) == issuer.issuerUrl
    && E.Presents(cfg, log[h.created].event.mdoc, log[h.posted].event.vpToken, VV.KeyOf(cfg, log, q, h), log[h.verified].now / 1000,
                  idx, StatusUri(issuer.issuerUrl))
  }

  /** The list that the handler fetched was built after position `i` of the issuer's run. */
  ghost predicate FetchedLater(cfg: V.Config, issuer: I.Config, key: PrivateKey, issued: seq<I.Entry>, i: int, log: seq<V.Entry>, h: VV.Trail) {
    && h.fetched < |log| && log[h.fetched].event.StatusFetched? && log[h.fetched].event.text.Some?
    && exists j, built, ttl :: i < j && BuiltAt(cfg, issuer, key, issued, j, log[h.fetched].event.text.value, built, ttl)
  }

  lemma ReadIsNotValid(cfg: V.Config, issuer: I.Config, key: PrivateKey, issued: seq<I.Timed>, i: int, idx: nat, token: string, t: int)
    requires SignaturesOpen(cfg.suite) && L.InflateUndoesDeflate(cfg.lists) && OpenChecksTime(cfg.suite) && PayloadIsInTheText(cfg.suite)
    requires RevokedAt(I.Run(issuer, issued).1, i, idx)
    requires exists j, built, ttl :: i < j && BuiltAt(cfg, issuer, key, I.Run(issuer, issued).1, j, token, built, ttl)
    ensures var read := L.ReadStatus(cfg.suite, cfg.lists, token, idx, cfg.suite.publicJwk(key), issuer.issuerUrl, StatusUri(issuer.issuerUrl), t);
            read.Status? ==> read.bit == L.STATUS_INVALID
  {
    hide I.Run, RevokedAt, BuiltAt, L.InflateUndoesDeflate;
    var j, built, ttl :| i < j && BuiltAt(cfg, issuer, key, I.Run(issuer, issued).1, j, token, built, ttl);
    if t < built + ttl {
      RevokedReadsInvalid(cfg, issuer, key, issued, i, j, idx, token, built, ttl, t);
    } else {
      ExpiredListsDoNotOpen(cfg, issuer, key, issued, j, token, built, ttl, t);
    }
  }

  /** Take any verdict that leaves the verifier, in any run, on any presentation of a credential issued under `idx`,
      however it was put together. If /admin/revoke had accepted `idx`, in any run of the issuer, before the status
      list that was fetched for it was built, the verdict is not valid; and if the list was read, it reports the
      revocation. */
  lemma {:induction false} RevokedCredentialsAreNeverValid(
    issuer: I.Config, key: PrivateKey, issued: seq<I.Timed>, i: int, idx: nat,
    cfg: V.Config, input: seq<V.Timed>, n: nat, q: nat, h: VV.Trail, end: nat)
    requires SignaturesOpen(cfg.suite) && L.InflateUndoesDeflate(cfg.lists) && OpenChecksTime(cfg.suite) && PayloadIsInTheText(cfg.suite)
    requires n < |input| && V.Run(cfg, input).1[n].response.Result? && VV.Explains(cfg, V.Run(cfg, input).1, n, q, h, end)
    requires IssuedUnder(cfg, issuer, key, V.Run(cfg, input).1, q, h, idx) && RevokedAt(I.Run(issuer, issued).1, i, idx)
    requires VV.WasFetched(cfg, V.Run(cfg, input).1, q, h) ==>
               FetchedLater(cfg, issuer, key, I.Run(issuer, issued).1, i, V.Run(cfg, input).1, h)
    ensures var log := V.Run(cfg, input).1; var v := log[n].response.verdict;
            && !v.valid
            && (end == h.read && VV.WasRead(cfg, log, q, h) ==> V.CredentialRevoked in v.errors)
  {
    var log := V.Run(cfg, input).1;
    hide V.Run, I.Run, RevokedAt, E.Presents;
    E.PresentedReachesItsStatusEntry(cfg, log[h.created].event.mdoc, log[h.posted].event.vpToken, VV.KeyOf(cfg, log, q, h),
                                     log[h.created].event.newNonce, log[h.verified].now, idx, StatusUri(issuer.issuerUrl));
    if VV.WasRead(cfg, log, q, h) {
      ReadIsNotValid(cfg, issuer, key, issued, i, idx, log[h.fetched].event.text.value, log[h.read].now / 1000);
      ReadUnder(cfg, issuer, key, log, q, h, idx);
    }
    hide VV.WasChecked, VV.CheckOf, VV.ReadOf, VV.GotKey, V.WithDcql, IssuedUnder, FetchedLater;
    RevokedVerdict(cfg, log, q, h, end, log[n].response.verdict);
  }

  /** The reading at the end of the trail is of this index in this issuer's list. */
  lemma ReadUnder(cfg: V.Config, issuer: I.Config, key: PrivateKey, log: seq<V.Entry>, q: nat, h: VV.Trail, idx: nat)
    requires IssuedUnder(cfg, issuer, key, log, q, h, idx) && VV.WasRead(cfg, log, q, h)
    requires VV.CheckOf(cfg, log, q, h).value.status == Some(V.StatusRef(Some(StatusUri(issuer.issuerUrl)), idx))
    ensures VV.ReadOf(cfg, log, q, h) ==
            L.ReadStatus(cfg.suite, cfg.lists, log[h.fetched].event.text.value, idx, cfg.suite.publicJwk(key), issuer.issuerUrl,
                         StatusUri(issuer.issuerUrl), log[h.read].now / 1000)
  {
    hide L.ReadStatus, VV.CheckOf, E.Presents;
  }

  lemma RevokedVerdict(cfg: V.Config, log: seq<V.Entry>, q: nat, h: VV.Trail, end: nat, v: V.Verdict)
    requires VV.Concluded(cfg, log, q, h, end, v) && VV.SaysSo(cfg, log, q, h, end, v)
    requires var c := VV.CheckOf(cfg, log, q, h).value; c.verdict.valid ==> c.status.Some?
    requires VV.WasRead(cfg, log, q, h) ==> VV.ReadOf(cfg, log, q, h).bit == L.STATUS_INVALID
    ensures !v.valid
    ensures end == h.read && VV.WasRead(cfg, log, q, h) ==> V.CredentialRevoked in v.errors
  {
    var c := VV.CheckOf(cfg, log, q, h).value;
    var w := V.WithStatus(c.verdict, L.STATUS_INVALID);
    assert VV.WasRead(cfg, log, q, h) ==> h.verified < h.read;
    assert w.errors[|w.errors| - 1] == V.CredentialRevoked;
    hide VV.CheckOf, VV.ReadOf, VV.WasRead, VV.WasChecked, V.Paths;
  }
}
