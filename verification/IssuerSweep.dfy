/** Sweeping expired entries out of the four stores is invisible to clients. The sweep runs on a timer, so it may
    fall between any two stretches of handler code; while no store is full, no response depends on where it does. */
module IssuerSweep {
  import opened Basics
  import opened IssuerModel
  import opened IssuerGrants
  import opened IssuerTheorems
  import opened IssuerRuns

  /** `t` lacks some of the entries of `s` that have expired by `now`, and is otherwise the same. */
  ghost predicate Lags(s: State, t: State, now: int)
    requires Wf(s)
  {
    SameCore(s, t) && OffersLag(s, t, now) && ParsLag(s, t, now) && CodesLag(s, t, now) && TokensLag(s, t, now)
  }

  ghost predicate SameCore(s: State, t: State) {
    && t.heap == s.heap && t.nextRef == s.nextRef && t.flights == s.flights
    && t.nextStatusIdx == s.nextStatusIdx && t.issuedRecords == s.issuedRecords && t.revoked == s.revoked
  }

  ghost predicate Submap<K(!new), V(!new)>(m: map<K, V>, n: map<K, V>) {
    forall k :: k in m ==> k in n && n[k] == m[k]
  }

  ghost predicate OffersLag(s: State, t: State, now: int)
    requires Wf(s)
  {
    Submap(t.offers, s.offers) && forall k :: k in s.offers && k !in t.offers ==> OfferExpired(s, now, s.offers[k])
  }

  ghost predicate ParsLag(s: State, t: State, now: int) {
    Submap(t.parRequests, s.parRequests) && forall k :: k in s.parRequests && k !in t.parRequests ==> ParExpired(now, s.parRequests[k])
  }

  ghost predicate CodesLag(s: State, t: State, now: int) {
    Submap(t.authCodes, s.authCodes) && forall k :: k in s.authCodes && k !in t.authCodes ==> CodeExpired(now, s.authCodes[k])
  }

  ghost predicate TokensLag(s: State, t: State, now: int)
    requires Wf(s)
  {
    Submap(t.accessTokens, s.accessTokens) && forall k :: k in s.accessTokens && k !in t.accessTokens ==> TokenExpired(s, now, s.accessTokens[k])
  }

  lemma LagsLater(s: State, t: State, now: int, later: int)
    requires Wf(s) && Lags(s, t, now) && now <= later
    ensures Lags(s, t, later)
  {
  }

  lemma LaggingIsSmaller<K(!new), V(!new)>(m: map<K, V>, n: map<K, V>)
    requires Submap(m, n)
    ensures |m| <= |n|
  {
    FewerKeys(m, n);
  }

  // ----------------------------------------------------------- same decisions

  /** The effects on the two states: the same, or a drop of something that `t` no longer has. */
  ghost predicate Match(t: State, e: Effect, f: Effect) {
    || f == e
    || (f == Nothing && match e
                        case DropPar(uri) => uri !in t.parRequests
                        case DropGrant(grant) => GrantRef(t, grant) == None
                        case DropToken(token) => token !in t.accessTokens
                        case _ => false)
  }

  predicate Full(r: Response) { r == Failed(429, TooManyRequests) }

  lemma SameAuthorize(cfg: Config, s: State, t: State, now: int, uri: string, code: string)
    requires Wf(s) && Wf(t) && Lags(s, t, now) && !Full(DecideAuthorize(s, now, uri, code).1)
    ensures DecideAuthorize(t, now, uri, code).1 == DecideAuthorize(s, now, uri, code).1
    ensures Match(t, DecideAuthorize(s, now, uri, code).0, DecideAuthorize(t, now, uri, code).0)
  {
    LaggingIsSmaller(t.authCodes, s.authCodes);
  }

  lemma SameRedeem(cfg: Config, s: State, t: State, now: int, grant: Grant)
    requires Wf(s) && Wf(t) && Lags(s, t, now)
    ensures var a, b := Redeem(cfg, s, now, grant), Redeem(cfg, t, now, grant);
            a == b || (a.Refused? && b.Refused? && a.response == b.response && Match(t, a.effect, b.effect))
  {
  }

  lemma SameToken(cfg: Config, s: State, t: State, now: int, grant: Grant, token: string, nonce: string)
    requires Wf(s) && Wf(t) && Lags(s, t, now) && !Full(DecideToken(cfg, s, now, grant, token, nonce).1)
    ensures DecideToken(cfg, t, now, grant, token, nonce).1 == DecideToken(cfg, s, now, grant, token, nonce).1
    ensures Match(t, DecideToken(cfg, s, now, grant, token, nonce).0, DecideToken(cfg, t, now, grant, token, nonce).0)
  {
    SameRedeem(cfg, s, t, now, grant);
    LaggingIsSmaller(t.accessTokens, s.accessTokens);
    hide Redeem, OffersLag, ParsLag, CodesLag, TokensLag, Submap, Wf;
  }

  lemma SameCredential(s: State, t: State, now: int, request: nat, token: string, hasProof: bool, hasJwk: bool)
    requires Wf(s) && Wf(t) && Lags(s, t, now)
    ensures DecideCredential(t, now, request, token, hasProof, hasJwk).1 == DecideCredential(s, now, request, token, hasProof, hasJwk).1
    ensures Match(t, DecideCredential(s, now, request, token, hasProof, hasJwk).0, DecideCredential(t, now, request, token, hasProof, hasJwk).0)
  {
  }

  lemma SameOffering(s: State, t: State, now: int, configId: Option<ConfigId>, code: string)
    requires Wf(s) && Lags(s, t, now) && !Full(DecideOffer(s, now, configId, code).1)
    ensures DecideOffer(t, now, configId, code) == DecideOffer(s, now, configId, code)
  {
    LaggingIsSmaller(t.offers, s.offers);
  }

  lemma SamePushing(s: State, t: State, now: int, clientId: string, challenge: string, isS256: bool, uri: string)
    requires Wf(s) && Lags(s, t, now) && !Full(DecidePar(s, now, clientId, challenge, isS256, uri).1)
    ensures DecidePar(t, now, clientId, challenge, isS256, uri) == DecidePar(s, now, clientId, challenge, isS256, uri)
  {
    LaggingIsSmaller(t.parRequests, s.parRequests);
  }

  lemma SameDecision(cfg: Config, s: State, t: State, now: int, e: Event)
    requires Wf(s) && Wf(t) && Lags(s, t, now) && !Full(Decide(cfg, s, now, e).1)
    ensures Decide(cfg, t, now, e).1 == Decide(cfg, s, now, e).1
    ensures Match(t, Decide(cfg, s, now, e).0, Decide(cfg, t, now, e).0)
  {
    hide OffersLag, ParsLag, CodesLag, TokensLag, Wf, DecideAuthorize, DecideToken, DecideCredential;
    match e {
      case PostOffer(configId, code) => SameOffering(s, t, now, configId, code);
      case PostPar(clientId, challenge, isS256, uri) => SamePushing(s, t, now, clientId, challenge, isS256, uri);
      case GetAuthorize(uri, code) => SameAuthorize(cfg, s, t, now, uri, code);
      case PostToken(grant, token, nonce) => SameToken(cfg, s, t, now, grant, token, nonce);
      case PostCredential(request, token, hasProof, hasJwk) => SameCredential(s, t, now, request, token, hasProof, hasJwk);
      case _ =>
    }
    hide DecideOffer, DecidePar;
  }

  // ------------------------------------------------------------- same effects

  lemma AddOfferLags(s: State, t: State, now: int, code: string, record: Pending)
    requires Wf(s) && Wf(t) && Lags(s, t, now) && Wf(Perform(s, AddOffer(code, record)))
    ensures Lags(Perform(s, AddOffer(code, record)), Perform(t, AddOffer(code, record)), now)
  {
  }

  lemma AddParLags(s: State, t: State, now: int, uri: string, par: ParRequest)
    requires Wf(s) && Wf(t) && Lags(s, t, now) && Wf(Perform(s, AddPar(uri, par)))
    ensures Lags(Perform(s, AddPar(uri, par)), Perform(t, AddPar(uri, par)), now)
  {
  }

  lemma ParToCodeLags(s: State, t: State, now: int, e: Effect)
    requires Wf(s) && Wf(t) && Lags(s, t, now) && Grounded(s, e) && e.ParToCode? && Wf(Perform(s, e))
    ensures Lags(Perform(s, e), Perform(t, e), now)
  {
  }

  lemma CreatingLags(s: State, t: State, now: int, e: Effect)
    requires Wf(s) && Wf(t) && Lags(s, t, now) && Grounded(s, e) && Creates(e) && Wf(Perform(s, e))
    ensures Lags(Perform(s, e), Perform(t, e), now)
  {
    hide Perform, Lags, Wf, Grounded;
    match e {
      case AddOffer(code, record) => AddOfferLags(s, t, now, code, record);
      case AddPar(uri, par) => AddParLags(s, t, now, uri, par);
      case ParToCode(_, _, _, _) => ParToCodeLags(s, t, now, e);
    }
  }

  lemma DroppingLags(s: State, t: State, now: int, e: Effect)
    requires Wf(s) && Wf(t) && Lags(s, t, now) && Drops(e) && !e.DropExpired? && Wf(Perform(s, e))
    ensures Lags(Perform(s, e), Perform(t, e), now)
  {
  }

  lemma SweepingBothLags(s: State, t: State, now: int)
    requires Wf(s) && Wf(t) && Lags(s, t, now) && Wf(Perform(s, DropExpired(now)))
    ensures Lags(Perform(s, DropExpired(now)), Perform(t, DropExpired(now)), now)
  {
  }

  lemma TakingTokenLags(s: State, t: State, now: int, e: Effect)
    requires Wf(s) && Wf(t) && Lags(s, t, now) && e.TokenToFlight? && Wf(Perform(s, e))
    ensures Lags(Perform(s, e), Perform(t, e), now)
  {
  }

  lemma FlyingKeepsStores(s: State, e: Effect)
    requires Wf(s) && !Creates(e) && !Drops(e) && !Redeems(e) && !e.TokenToFlight?
    ensures var s' := Perform(s, e);
            && s'.heap == s.heap && s'.nextRef == s.nextRef && s'.offers == s.offers && s'.parRequests == s.parRequests
            && s'.authCodes == s.authCodes && s'.accessTokens == s.accessTokens
  {
  }

  lemma FlyingKeepsCore(s: State, t: State, e: Effect)
    requires Wf(s) && Wf(t) && SameCore(s, t) && !Creates(e) && !Drops(e) && !Redeems(e) && !e.TokenToFlight?
    ensures SameCore(Perform(s, e), Perform(t, e))
  {
  }

  lemma FlyingLags(s: State, t: State, now: int, e: Effect)
    requires Wf(s) && Wf(t) && Lags(s, t, now) && !Creates(e) && !Drops(e) && !Redeems(e) && Wf(Perform(s, e))
    ensures Lags(Perform(s, e), Perform(t, e), now)
  {
    if e.TokenToFlight? {
      TakingTokenLags(s, t, now, e);
      hide Perform, Lags, Wf;
    } else {
      FlyingKeepsStores(s, e);
      FlyingKeepsStores(t, e);
      FlyingKeepsCore(s, t, e);
      hide Perform, Submap, Wf;
    }
  }

  /** No token shares the record of a grant about to be redeemed; so issuing it a new token revives no other. */
  lemma NoTokenShares(s: State, l: Ledger, n: nat, grant: Grant)
    requires Conserved(s, l, n) && GrantRef(s, grant).Some?
    ensures forall k :: k in s.accessTokens ==> s.accessTokens[k] != GrantRef(s, grant).value
  {
    var g := GrantPlace(grant);
    GrantPlaceHoldsRef(s, l, grant);
    GrantOfRef(s, l, g);
    assert GrantAt(s, l, g).Some?;
    forall k | k in s.accessTokens
      ensures s.accessTokens[k] != GrantRef(s, grant).value
    {
      assert RefAt(s, l, InTokens(k)) == Some(s.accessTokens[k]);
      GrantOfRef(s, l, InTokens(k));
      assert g != InTokens(k);
    }
  }

  /** What redeeming a grant does to each store. */
  lemma Redeemed(s: State, e: Effect)
    requires Wf(s) && Redeems(e)
    ensures var s' := Perform(s, e);
            && s'.offers == s.offers - OfferKeys(e.grant) && s'.parRequests == s.parRequests
            && s'.authCodes == s.authCodes - CodeKeys(e.grant)
            && s'.accessTokens == (if e.GrantToToken? then s.accessTokens[e.token := e.ref] else s.accessTokens)
            && s'.heap == s.heap[e.ref := e.record] && s'.nextRef == s.nextRef && s'.flights == s.flights
            && s'.nextStatusIdx == s.nextStatusIdx && s'.issuedRecords == s.issuedRecords && s'.revoked == s.revoked
  {
  }

  lemma SubmapMinus<K(!new), V(!new)>(m: map<K, V>, n: map<K, V>, keys: set<K>)
    requires Submap(m, n)
    ensures Submap(m - keys, n - keys)
  {
  }

  lemma RedeemedTokensLag(s: State, t: State, now: int, e: Effect)
    requires Wf(s) && Wf(t) && TokensLag(s, t, now) && Redeems(e) && Wf(Perform(s, e))
    requires forall k :: k in s.accessTokens ==> s.accessTokens[k] != e.ref
    ensures TokensLag(Perform(s, e), Perform(t, e), now)
  {
    Redeemed(s, e);
    Redeemed(t, e);
    hide Perform;
  }

  lemma RedeemedOffersLag(s: State, t: State, now: int, e: Effect)
    requires Wf(s) && Wf(t) && OffersLag(s, t, now) && Redeems(e) && Grounded(s, e) && Wf(Perform(s, e))
    ensures OffersLag(Perform(s, e), Perform(t, e), now)
  {
    Redeemed(s, e);
    Redeemed(t, e);
    assert e.record.createdAt == s.heap[e.ref].createdAt;
    SubmapMinus(t.offers, s.offers, OfferKeys(e.grant));
    hide Perform, Submap, Grounded;
  }

  lemma RedeemingStoresLag(s: State, t: State, now: int, e: Effect)
    requires Wf(s) && Wf(t) && Lags(s, t, now) && Grounded(s, e) && Redeems(e) && Wf(Perform(s, e))
    requires forall k :: k in s.accessTokens ==> s.accessTokens[k] != e.ref
    ensures Lags(Perform(s, e), Perform(t, e), now)
  {
    RedeemedTokensLag(s, t, now, e);
    RedeemedOffersLag(s, t, now, e);
    Redeemed(s, e);
    Redeemed(t, e);
    SubmapMinus(t.authCodes, s.authCodes, CodeKeys(e.grant));
    hide Perform, TokensLag, OffersLag, Submap, Grounded, Wf;
  }

  lemma SameEffectLags(s: State, t: State, l: Ledger, n: nat, now: int, e: Effect)
    requires Wf(s) && Wf(t) && Lags(s, t, now) && Grounded(s, e) && Conserved(s, l, n) && Wf(Perform(s, e))
    requires e.DropExpired? ==> e.now == now
    ensures Lags(Perform(s, e), Perform(t, e), now)
  {
    if Creates(e) {
      CreatingLags(s, t, now, e);
    } else if e.DropExpired? {
      SweepingBothLags(s, t, now);
    } else if Drops(e) {
      DroppingLags(s, t, now, e);
    } else if Redeems(e) {
      NoTokenShares(s, l, n, e.grant);
      RedeemingStoresLag(s, t, now, e);
    } else {
      FlyingLags(s, t, now, e);
    }
    hide Perform, Lags, Wf, Conserved;
  }

  /** Dropping from `s` what `t` no longer has. */
  lemma MissingDropLags(s: State, t: State, now: int, e: Effect)
    requires Wf(s) && Wf(t) && Lags(s, t, now) && Match(t, e, Nothing) && Wf(Perform(s, e))
    ensures Lags(Perform(s, e), t, now)
  {
  }

  lemma SweepingOneLags(s: State, t: State, now: int)
    requires Wf(s) && Wf(t) && Lags(s, t, now)
    ensures Lags(s, Perform(t, DropExpired(now)), now)
  {
  }

  lemma SweepsAt(cfg: Config, s: State, now: int, e: Event)
    requires Wf(s)
    ensures Decide(cfg, s, now, e).0.DropExpired? ==> Decide(cfg, s, now, e).0.now == now
    ensures e.Sweep? ==> Decide(cfg, s, now, e) == (DropExpired(now), Swept)
  {
  }

  lemma StepLags(cfg: Config, s: State, t: State, l: Ledger, n: nat, now: int, event: Event)
    requires Wf(s) && Wf(t) && Lags(s, t, now) && Conserved(s, l, n) && !Full(Step(cfg, s, now, event).1)
    ensures Step(cfg, t, now, event).1 == Step(cfg, s, now, event).1
    ensures Wf(Step(cfg, s, now, event).0) && Lags(Step(cfg, s, now, event).0, Step(cfg, t, now, event).0, now)
  {
    var e, f := Decide(cfg, s, now, event).0, Decide(cfg, t, now, event).0;
    SameDecision(cfg, s, t, now, event);
    DecisionsAreGrounded(cfg, s, now, event);
    StepKeepsWf(cfg, s, now, event);
    SweepsAt(cfg, s, now, event);
    if e == f {
      SameEffectLags(s, t, l, n, now, e);
    } else {
      MissingDropLags(s, t, now, e);
      assert Perform(t, Nothing) == t;
    }
    hide Decide, Perform, Lags, Wf, Conserved, Grounded, Match;
  }

  // ------------------------------------------------------------- whole runs

  /** The elements whose flag is set. */
  function Kept<T>(s: seq<T>, keep: seq<bool>): (r: seq<T>)
    requires |keep| == |s|
  {
    if s == [] then []
    else
      var n := |s| - 1;
      Kept(s[..n], keep[..n]) + (if keep[n] then [s[n]] else [])
  }

  /** The deleted events are sweeps. */
  ghost predicate DeletesSweeps(input: seq<Timed>, keep: seq<bool>) {
    |keep| == |input| && forall i :: 0 <= i < |input| && !keep[i] ==> input[i].event.Sweep?
  }

  ghost predicate NeverFull(log: seq<Entry>) {
    forall i :: 0 <= i < |log| ==> !Full(log[i].response)
  }

  ghost predicate Simulates(cfg: Config, input: seq<Timed>, keep: seq<bool>)
    requires |keep| == |input|
  {
    && Kept(Run(cfg, input).1, keep) == Run(cfg, Kept(input, keep)).1
    && forall now :: (forall i :: 0 <= i < |input| ==> input[i].now <= now) ==> Lags(Run(cfg, Kept(input, keep)).0, Run(cfg, input).0, now)
  }

  lemma LastStep(cfg: Config, input: seq<Timed>, x: Timed)
    ensures var (s, log) := Run(cfg, input); var (s', response) := Step(cfg, s, x.now, x.event);
            Run(cfg, input + [x]) == (s', log + [Entry(x.now, x.event, response)])
  {
    assert (input + [x])[..|input|] == input;
  }

  lemma KeptLast<T>(s: seq<T>, keep: seq<bool>, x: T, k: bool)
    requires |keep| == |s|
    ensures Kept(s + [x], keep + [k]) == if k then Kept(s, keep) + [x] else Kept(s, keep)
  {
    assert (s + [x])[..|s|] == s && (keep + [k])[..|s|] == keep;
  }

  lemma SweepIsStep(cfg: Config, s: State, now: int)
    requires Wf(s)
    ensures Step(cfg, s, now, Sweep) == (Perform(s, DropExpired(now)), Swept)
  {
  }

  lemma SweepSimulates(cfg: Config, input: seq<Timed>, keep: seq<bool>, x: Timed)
    requires |keep| == |input| && Kept(Run(cfg, input).1, keep) == Run(cfg, Kept(input, keep)).1
    requires Lags(Run(cfg, Kept(input, keep)).0, Run(cfg, input).0, x.now) && x.event.Sweep?
    ensures var input', keep' := input + [x], keep + [false];
            && Kept(Run(cfg, input').1, keep') == Run(cfg, Kept(input', keep')).1
            && Lags(Run(cfg, Kept(input', keep')).0, Run(cfg, input').0, x.now)
  {
    hide *;
    var t := Run(cfg, input).0;
    LastStep(cfg, input, x);
    KeptLast(input, keep, x, false);
    KeptLast(Run(cfg, input).1, keep, Entry(x.now, x.event, Step(cfg, t, x.now, x.event).1), false);
    SweepIsStep(cfg, t, x.now);
    SweepingOneLags(Run(cfg, Kept(input, keep)).0, t, x.now);
  }

  lemma EventSimulates(cfg: Config, input: seq<Timed>, keep: seq<bool>, x: Timed)
    requires |keep| == |input| && Kept(Run(cfg, input).1, keep) == Run(cfg, Kept(input, keep)).1
    requires Lags(Run(cfg, Kept(input, keep)).0, Run(cfg, input).0, x.now)
    requires !Full(Step(cfg, Run(cfg, Kept(input, keep)).0, x.now, x.event).1)
    ensures var input', keep' := input + [x], keep + [true];
            && Kept(Run(cfg, input').1, keep') == Run(cfg, Kept(input', keep')).1
            && Lags(Run(cfg, Kept(input', keep')).0, Run(cfg, input').0, x.now)
  {
    var base := Kept(input, keep);
    var s, t := Run(cfg, base).0, Run(cfg, input).0;
    LastStep(cfg, input, x);
    LastStep(cfg, base, x);
    KeptLast(input, keep, x, true);
    KeptLast(Run(cfg, input).1, keep, Entry(x.now, x.event, Step(cfg, t, x.now, x.event).1), true);
    RunKeepsInvariant(cfg, base);
    StepLags(cfg, s, t, Past(cfg, base), |base|, x.now, x.event);
    hide Step, Lags, Run, Kept, Wf, Conserved, IndicesDistinct, Capped, Explained;
  }

  lemma SimulatesOneMore(cfg: Config, input: seq<Timed>, keep: seq<bool>, x: Timed, k: bool)
    requires |keep| == |input| && Simulates(cfg, input, keep) && (!k ==> x.event.Sweep?)
    requires forall i :: 0 <= i < |input| ==> input[i].now <= x.now
    requires k ==> !Full(Step(cfg, Run(cfg, Kept(input, keep)).0, x.now, x.event).1)
    ensures Simulates(cfg, input + [x], keep + [k])
  {
    assert Lags(Run(cfg, Kept(input, keep)).0, Run(cfg, input).0, x.now);
    if k {
      EventSimulates(cfg, input, keep, x);
    } else {
      SweepSimulates(cfg, input, keep, x);
    }
    hide Run, Kept, Lags, Step;
    var input', keep' := input + [x], keep + [k];
    forall now | forall i :: 0 <= i < |input'| ==> input'[i].now <= now
      ensures Lags(Run(cfg, Kept(input', keep')).0, Run(cfg, input').0, now)
    {
      assert input'[|input|].now <= now;
      LagsLater(Run(cfg, Kept(input', keep')).0, Run(cfg, input').0, x.now, now);
    }
  }

  /** Nothing was full before the last event, nor at it. */
  lemma NeverFullBefore(cfg: Config, input: seq<Timed>, x: Timed, keep: seq<bool>, k: bool)
    requires |keep| == |input| && NeverFull(Run(cfg, Kept(input + [x], keep + [k])).1)
    ensures NeverFull(Run(cfg, Kept(input, keep)).1)
    ensures k ==> !Full(Step(cfg, Run(cfg, Kept(input, keep)).0, x.now, x.event).1)
  {
    hide Run, Kept, Step, Full, Wf;
    KeptLast(input, keep, x, k);
    var base := Kept(input, keep);
    var log := Run(cfg, base).1;
    if k {
      LastStep(cfg, base, x);
      var longer := Run(cfg, base + [x]).1;
      assert !Full(longer[|base|].response);
      assert forall i :: 0 <= i < |log| ==> log[i] == longer[i];
    }
  }

  lemma {:induction false} RunSimulates(cfg: Config, input: seq<Timed>, keep: seq<bool>)
    requires ClockRunsForward(input) && DeletesSweeps(input, keep) && NeverFull(Run(cfg, Kept(input, keep)).1)
    ensures Simulates(cfg, input, keep)
  {
    if input != [] {
      var n := |input| - 1;
      var before, flags, x, k := input[..n], keep[..n], input[n], keep[n];
      assert input == before + [x] && keep == flags + [k];
      NeverFullBefore(cfg, before, x, flags, k);
      RunSimulates(cfg, before, flags);
      hide Run, Kept, Simulates, Decide, Perform;
      SimulatesOneMore(cfg, before, flags, x, k);
    }
  }

  /** Delete any of the sweeps from any run: every other request gets the same response, the same identifiers
      and the same credential, provided the clock never goes back and the run left over never meets a full store. */
  lemma SweepsAreTransparent(cfg: Config, input: seq<Timed>, keep: seq<bool>)
    requires ClockRunsForward(input) && DeletesSweeps(input, keep) && NeverFull(Run(cfg, Kept(input, keep)).1)
    ensures Kept(Run(cfg, input).1, keep) == Run(cfg, Kept(input, keep)).1
  {
    RunSimulates(cfg, input, keep);
    hide Run, Kept, Lags, NeverFull;
  }
}
