/** What holds of the issuer over whole runs: any clients, any interleaving of handler stretches and sweeps. */
module IssuerTheorems {
  import opened Basics
  import opened IssuerModel
  import opened IssuerGrants

  // ------------------------------------------------------------- size limits

  ghost predicate Capped(s: State) {
    |s.offers| <= 10_000 && |s.parRequests| <= 10_000 && |s.authCodes| <= 10_000 && |s.accessTokens| <= 10_000
  }

  lemma FewerKeys<K, V>(m: map<K, V>, n: map<K, V>)
    requires m.Keys <= n.Keys
    ensures |m| <= |n|
  {
    assert n.Keys == m.Keys + (n.Keys - m.Keys);
    assert |n.Keys| == |m.Keys| + |n.Keys - m.Keys|;
  }

  /** Which keys can appear: only those of the entry that arrives. */
  lemma KeysAfter(s: State, e: Effect)
    requires Wf(s)
    ensures var s' := Perform(s, e);
            && s'.offers.Keys <= (if e.AddOffer? then s.offers.Keys + {e.offerCode} else s.offers.Keys)
            && s'.parRequests.Keys <= (if e.AddPar? then s.parRequests.Keys + {e.uri} else s.parRequests.Keys)
            && s'.authCodes.Keys <= (if e.ParToCode? then s.authCodes.Keys + {e.code} else s.authCodes.Keys)
            && s'.accessTokens.Keys <= (if e.GrantToToken? then s.accessTokens.Keys + {e.token} else s.accessTokens.Keys)
  {
  }

  lemma SizeAfter<K, V, W>(m: map<K, V>, m': map<K, W>, limit: nat, added: Option<K>)
    requires |m| <= limit && (added.Some? ==> |m| < limit)
    requires m'.Keys <= m.Keys + (if added.Some? then {added.value} else {})
    ensures |m'| <= limit
  {
    var keys := m.Keys + (if added.Some? then {added.value} else {});
    assert keys == m'.Keys + (keys - m'.Keys);
    assert |keys| == |m'.Keys| + |keys - m'.Keys|;
  }

  /** The guards leave room for the entry that arrives. */
  lemma RoomForOne(s: State, e: Effect)
    requires Wf(s) && Grounded(s, e)
    ensures e.AddOffer? ==> |s.offers| < MAX_MAP_SIZE
    ensures e.AddPar? ==> |s.parRequests| < MAX_MAP_SIZE
    ensures e.ParToCode? ==> |s.authCodes| < MAX_MAP_SIZE
    ensures e.GrantToToken? ==> |s.accessTokens| < MAX_MAP_SIZE
  {
  }

  lemma EffectKeepsCaps(s: State, e: Effect)
    requires Wf(s) && Grounded(s, e) && Capped(s)
    ensures Capped(Perform(s, e))
  {
    hide Perform, Grounded, Wf;
    KeysAfter(s, e);
    RoomForOne(s, e);
    var s' := Perform(s, e);
    SizeAfter(s.offers, s'.offers, MAX_MAP_SIZE, if e.AddOffer? then Some(e.offerCode) else None);
    SizeAfter(s.parRequests, s'.parRequests, MAX_MAP_SIZE, if e.AddPar? then Some(e.uri) else None);
    SizeAfter(s.authCodes, s'.authCodes, MAX_MAP_SIZE, if e.ParToCode? then Some(e.code) else None);
    SizeAfter(s.accessTokens, s'.accessTokens, MAX_MAP_SIZE, if e.GrantToToken? then Some(e.token) else None);
  }

  // -------------------------------------------------------------- provenance

  /** Position `k` of the log redeemed, in time and with matching credentials, a grant requested at an earlier
      position, and gave out a token for this configuration. */
  ghost predicate RedeemedAt(cfg: Config, log: seq<Entry>, o: Origin, k: nat, configId: ConfigId) {
    && k < |log| && log[k].event.PostToken? && log[k].response.TokenIssued?
    && var grant := log[k].event.grant;
       match o
       case FromOffer(g) =>
         && grant.PreAuthorizedCode? && OfferedAt(log, g, k, grant.preAuthCode, configId)
         && log[k].now - log[g].now <= PRE_AUTH_CODE_TTL_MS
       case FromPar(g, a) =>
         && grant.AuthorizationCode? && configId == Pid && a < k && AuthorizedAt(log, g, a, grant.code)
         && grant.clientId == Some(log[g].event.clientId)
         && grant.codeVerifier.Some? && cfg.s256(grant.codeVerifier.value) == log[g].event.codeChallenge
         && log[k].now - log[a].now <= AUTH_CODE_TTL_MS
  }

  /** Position `g` created the offer with this code and configuration. */
  ghost predicate OfferedAt(log: seq<Entry>, g: nat, before: nat, code: string, configId: ConfigId) {
    && g < before <= |log| && log[g].event.PostOffer? && log[g].event.offerCode == code
    && log[g].response == OfferCreated(code, configId)
  }

  ghost predicate PushedAt(log: seq<Entry>, g: nat, before: nat, uri: string) {
    && g < before <= |log| && log[g].event.PostPar? && log[g].event.isS256 && log[g].event.newUri == uri
    && log[g].response == ParAccepted(uri)
  }

  /** Position `a` turned the PAR of position `g` into this code, while the PAR was live. */
  ghost predicate AuthorizedAt(log: seq<Entry>, g: nat, a: nat, code: string) {
    && a < |log| && log[a].event.GetAuthorize? && log[a].event.newCode == code && log[a].response == Authorized(code)
    && PushedAt(log, g, a, log[a].event.requestUri)
    && log[a].now - log[g].now <= PAR_TTL_MS
  }

  // What the entry at each place owes to the log.

  ghost predicate OfferExplained(log: seq<Entry>, l: Ledger, code: string, r: Ref, record: Pending) {
    && r in l.origin && l.origin[r].FromOffer?
    && OfferedAt(log, l.origin[r].offer, |log|, code, record.configId)
    && record.createdAt == Some(log[l.origin[r].offer].now)
  }

  ghost predicate ParExplained(log: seq<Entry>, l: Ledger, uri: string, par: ParRequest) {
    && uri in l.parOrigin && PushedAt(log, l.parOrigin[uri], |log|, uri)
    && var g := l.parOrigin[uri];
       par == ParRequest(log[g].event.clientId, log[g].event.codeChallenge, log[g].now)
  }

  ghost predicate CodeExplained(log: seq<Entry>, l: Ledger, code: string, c: AuthCode, record: Pending) {
    && c.pending in l.origin && l.origin[c.pending].FromPar? && record.configId == Pid
    && var o := l.origin[c.pending];
       && AuthorizedAt(log, o.par, o.authorize, code)
       && c.clientId == log[o.par].event.clientId && c.codeChallenge == log[o.par].event.codeChallenge
       && c.createdAt == log[o.authorize].now
  }

  ghost predicate TokenExplained(cfg: Config, log: seq<Entry>, l: Ledger, r: Ref, record: Pending) {
    && r in l.origin && r in l.redeemed && RedeemedAt(cfg, log, l.origin[r], l.redeemed[r], record.configId)
    && record.cNonce == Some(log[l.redeemed[r]].event.newNonce)
    && record.issuedAt == Some(log[l.redeemed[r]].now)
  }

  ghost predicate OffersExplained(s: State, l: Ledger, log: seq<Entry>)
    requires Wf(s)
  {
    forall k :: k in s.offers ==> OfferExplained(log, l, k, s.offers[k], s.heap[s.offers[k]])
  }

  ghost predicate ParsExplained(s: State, l: Ledger, log: seq<Entry>) {
    forall k :: k in s.parRequests ==> ParExplained(log, l, k, s.parRequests[k])
  }

  ghost predicate CodesExplained(s: State, l: Ledger, log: seq<Entry>)
    requires Wf(s)
  {
    forall k :: k in s.authCodes ==> CodeExplained(log, l, k, s.authCodes[k], s.heap[s.authCodes[k].pending])
  }

  ghost predicate TokensExplained(cfg: Config, s: State, l: Ledger, log: seq<Entry>)
    requires Wf(s)
  {
    forall k :: k in s.accessTokens ==> TokenExplained(cfg, log, l, s.accessTokens[k], s.heap[s.accessTokens[k]])
  }

  ghost predicate FlightsExplained(cfg: Config, s: State, l: Ledger, log: seq<Entry>)
    requires Wf(s)
  {
    forall k :: k in s.flights ==> TokenExplained(cfg, log, l, s.flights[k].pending, s.heap[s.flights[k].pending])
  }

  ghost predicate Explained(cfg: Config, s: State, l: Ledger, log: seq<Entry>)
    requires Wf(s)
  {
    && OffersExplained(s, l, log) && ParsExplained(s, l, log) && CodesExplained(s, l, log)
    && TokensExplained(cfg, s, l, log) && FlightsExplained(cfg, s, l, log)
  }

  /** What the handlers' guards establish about time and credentials when an entry arrives somewhere. */
  ghost predicate Timely(cfg: Config, s: State, x: Entry, e: Effect)
    requires Wf(s) && Grounded(s, e)
  {
    match e
    case AddOffer(code, record) =>
      x.event.PostOffer? && x.event.offerCode == code && x.response == OfferCreated(code, record.configId) && record.createdAt == Some(x.now)
    case AddPar(uri, par) =>
      x.event.PostPar? && x.event.isS256 && x.event.newUri == uri && x.response == ParAccepted(uri) &&
      par == ParRequest(x.event.clientId, x.event.codeChallenge, x.now)
    case ParToCode(uri, code, authCode, record) =>
      var par := s.parRequests[uri];
      x.event == GetAuthorize(uri, code) && x.response == Authorized(code) && record.configId == Pid &&
      authCode == AuthCode(par.codeChallenge, par.clientId, s.nextRef, x.now) && x.now - par.createdAt <= PAR_TTL_MS
    case GrantToToken(grant, r, record, token) =>
      && x.event.PostToken? && x.event.grant == grant && x.response.TokenIssued?
      && record.cNonce == Some(x.event.newNonce) && record.issuedAt == Some(x.now)
      && (match grant
          case AuthorizationCode(code, clientId, verifier) =>
            var c := s.authCodes[code];
            clientId == Some(c.clientId) && verifier.Some? && cfg.s256(verifier.value) == c.codeChallenge &&
            x.now - c.createdAt <= AUTH_CODE_TTL_MS
          case PreAuthorizedCode(code) => Age(x.now, s.heap[r].createdAt) <= PRE_AUTH_CODE_TTL_MS)
    case _ => true
  }

  lemma DecisionsAreTimely(cfg: Config, s: State, now: int, event: Event)
    requires Wf(s)
    ensures var (e, response) := Decide(cfg, s, now, event);
            Grounded(s, e) && Timely(cfg, s, Entry(now, event, response), e)
  {
    DecisionsAreGrounded(cfg, s, now, event);
  }

  /** A record reachable from a place that stayed is the same record, redeemed at the same position. */
  lemma RecordUntouched(s: State, l: Ledger, e: Effect, n: nat, p: Place)
    requires Wf(s) && Grounded(s, e) && Conserved(s, l, n) && !p.InIssued?
    requires Target(s, e) != Some(p) && RefAt(Perform(s, e), Track(l, s, n, e), p).Some?
    ensures var r, s', l' := RefAt(s, l, p), Perform(s, e), Track(l, s, n, e);
            && r.Some? && RefAt(s', l', p) == r && Held(s', l', p) == Held(s, l, p)
            && r.value in s.heap && r.value in s'.heap && s'.heap[r.value] == s.heap[r.value]
            && r.value in l.origin && r.value in l'.origin && l'.origin[r.value] == l.origin[r.value]
            && (r.value in l.redeemed ==> r.value in l'.redeemed && l'.redeemed[r.value] == l.redeemed[r.value])
  {
    EffectTransfers(s, l, e, n);
    StaysTheSame(s, l, Perform(s, e), Track(l, s, n, e), n, Source(s, e), Target(s, e), p);
    RefsLive(s, l, p);
    GrantOfRef(s, l, p);
    if Redeems(e) {
      GrantPlaceHoldsRef(s, l, e.grant);
      GrantOfRef(s, l, GrantPlace(e.grant));
    }
    OnlyRedeemedChanges(s, l, e, n, RefAt(s, l, p).value);
    hide Perform, Track, GrantAt, Held, GrantRef, GrantPlace, Wf;
  }

  lemma RefsLive(s: State, l: Ledger, p: Place)
    requires Wf(s) && RefAt(s, l, p).Some? && !p.InIssued?
    ensures RefAt(s, l, p).value in s.heap
  {
  }

  lemma OnlyRedeemedChanges(s: State, l: Ledger, e: Effect, n: nat, r: Ref)
    requires Wf(s) && Grounded(s, e) && r in s.heap
    ensures var s', l' := Perform(s, e), Track(l, s, n, e);
            && r in s'.heap
            && (!(Redeems(e) && e.ref == r) ==>
                  s'.heap[r] == s.heap[r] && (r in l.redeemed ==> r in l'.redeemed && l'.redeemed[r] == l.redeemed[r]))
  {
    HeapAfter(s, e);
    assert s.nextRef !in s.heap;
    hide Perform, Wf;
  }

  // The facts survive a longer log.

  lemma OfferStill(log: seq<Entry>, x: Entry, l: Ledger, l': Ledger, code: string, r: Ref, record: Pending)
    requires OfferExplained(log, l, code, r, record) && r in l'.origin && l'.origin[r] == l.origin[r]
    ensures OfferExplained(log + [x], l', code, r, record)
  {
  }

  lemma ParStill(log: seq<Entry>, x: Entry, l: Ledger, l': Ledger, uri: string, par: ParRequest)
    requires ParExplained(log, l, uri, par) && uri in l'.parOrigin && l'.parOrigin[uri] == l.parOrigin[uri]
    ensures ParExplained(log + [x], l', uri, par)
  {
  }

  lemma CodeStill(log: seq<Entry>, x: Entry, l: Ledger, l': Ledger, code: string, c: AuthCode, record: Pending)
    requires CodeExplained(log, l, code, c, record) && c.pending in l'.origin && l'.origin[c.pending] == l.origin[c.pending]
    ensures CodeExplained(log + [x], l', code, c, record)
  {
  }

  lemma TokenStill(cfg: Config, log: seq<Entry>, x: Entry, l: Ledger, l': Ledger, r: Ref, record: Pending)
    requires TokenExplained(cfg, log, l, r, record)
    requires r in l'.origin && l'.origin[r] == l.origin[r] && r in l'.redeemed && l'.redeemed[r] == l.redeemed[r]
    ensures TokenExplained(cfg, log + [x], l', r, record)
  {
  }

  // The entry that arrives is explained by the step it arrives in.

  lemma NewOfferExplained(cfg: Config, s: State, l: Ledger, log: seq<Entry>, x: Entry, e: Effect)
    requires Wf(s) && Grounded(s, e) && Timely(cfg, s, x, e) && e.AddOffer?
    ensures OfferExplained(log + [x], Track(l, s, |log|, e), e.offerCode, s.nextRef, e.record)
  {
  }

  lemma NewParExplained(cfg: Config, s: State, l: Ledger, log: seq<Entry>, x: Entry, e: Effect)
    requires Wf(s) && Grounded(s, e) && Timely(cfg, s, x, e) && e.AddPar?
    ensures ParExplained(log + [x], Track(l, s, |log|, e), e.uri, e.par)
  {
  }

  lemma NewCodeExplained(cfg: Config, s: State, l: Ledger, log: seq<Entry>, x: Entry, e: Effect)
    requires Wf(s) && Grounded(s, e) && Timely(cfg, s, x, e) && e.ParToCode?
    requires ParExplained(log, l, e.uri, s.parRequests[e.uri])
    ensures CodeExplained(log + [x], Track(l, s, |log|, e), e.code, e.authCode, e.record)
  {
  }

  lemma NewTokenExplained(cfg: Config, s: State, l: Ledger, log: seq<Entry>, x: Entry, e: Effect)
    requires Wf(s) && Grounded(s, e) && Timely(cfg, s, x, e) && e.GrantToToken?
    requires match e.grant
             case PreAuthorizedCode(code) => OfferExplained(log, l, code, e.ref, s.heap[e.ref])
             case AuthorizationCode(code, _, _) => CodeExplained(log, l, code, s.authCodes[code], s.heap[e.ref])
    ensures TokenExplained(cfg, log + [x], Track(l, s, |log|, e), e.ref, e.record)
  {
  }

  // One step keeps every entry explained, store by store.

  /** The reference at a place, store by store. */
  lemma PlaceRefs(s: State, l: Ledger)
    ensures forall k :: k in s.offers ==> RefAt(s, l, InOffers(k)) == Some(s.offers[k])
    ensures forall k :: k in s.authCodes ==> RefAt(s, l, InCodes(k)) == Some(s.authCodes[k].pending) && Held(s, l, InCodes(k)) == Some(Coded(s.authCodes[k]))
    ensures forall k :: k in s.accessTokens ==> RefAt(s, l, InTokens(k)) == Some(s.accessTokens[k])
    ensures forall k :: k in s.flights ==> RefAt(s, l, InFlight(k)) == Some(s.flights[k].pending)
  {
  }

  lemma HeldInStore(s: State, l: Ledger, p: Place)
    requires Held(s, l, p).Some?
    ensures p.InOffers? ==> p.code in s.offers && RefAt(s, l, p) == Some(s.offers[p.code])
    ensures p.InCodes? ==> p.code in s.authCodes && Held(s, l, p) == Some(Coded(s.authCodes[p.code]))
    ensures p.InTokens? ==> p.token in s.accessTokens && RefAt(s, l, p) == Some(s.accessTokens[p.token])
    ensures p.InFlight? ==> p.request in s.flights && RefAt(s, l, p) == Some(s.flights[p.request].pending)
  {
  }

  /** What an arriving entry looks like in its store. */
  lemma Arrived(s: State, e: Effect)
    requires Wf(s) && Grounded(s, e)
    ensures var s' := Perform(s, e);
            && (e.AddOffer? ==> e.offerCode in s'.offers && s'.offers[e.offerCode] == s.nextRef && s'.heap[s.nextRef] == e.record)
            && (e.ParToCode? ==> e.code in s'.authCodes && s'.authCodes[e.code] == e.authCode && s'.heap[s.nextRef] == e.record)
            && (e.GrantToToken? ==> e.token in s'.accessTokens && s'.accessTokens[e.token] == e.ref && s'.heap[e.ref] == e.record)
            && (e.TokenToFlight? ==> e.request in s'.flights && s'.flights[e.request].pending == s.accessTokens[e.token] && s'.heap == s.heap)
  {
  }

  lemma OneOfferStaysExplained(cfg: Config, s: State, l: Ledger, log: seq<Entry>, x: Entry, e: Effect, k: string)
    requires Wf(s) && Grounded(s, e) && Conserved(s, l, |log|) && Wf(Perform(s, e)) && Target(s, e) != Some(InOffers(k))
    requires k in Perform(s, e).offers && OffersExplained(s, l, log)
    ensures var s', l' := Perform(s, e), Track(l, s, |log|, e); OfferExplained(log + [x], l', k, s'.offers[k], s'.heap[s'.offers[k]])
  {
    var s', l' := Perform(s, e), Track(l, s, |log|, e);
    PlaceRefs(s', l');
    RecordUntouched(s, l, e, |log|, InOffers(k));
    HeldInStore(s, l, InOffers(k));
    hide Perform, Track, Target, RefAt, Held, Grounded, Conserved;
    OfferStill(log, x, l, l', k, s.offers[k], s.heap[s.offers[k]]);
    hide OfferExplained, CodeExplained, TokenExplained;
  }

  lemma OffersStayExplained(cfg: Config, s: State, l: Ledger, log: seq<Entry>, x: Entry, e: Effect)
    requires Wf(s) && Grounded(s, e) && Timely(cfg, s, x, e) && Conserved(s, l, |log|) && Wf(Perform(s, e))
    requires OffersExplained(s, l, log)
    ensures OffersExplained(Perform(s, e), Track(l, s, |log|, e), log + [x])
  {
    var s', l' := Perform(s, e), Track(l, s, |log|, e);
    forall k | k in s'.offers
      ensures OfferExplained(log + [x], l', k, s'.offers[k], s'.heap[s'.offers[k]])
    {
      if Target(s, e) == Some(InOffers(k)) {
        Arrived(s, e);
        NewOfferExplained(cfg, s, l, log, x, e);
        hide OfferExplained, ParExplained, CodeExplained, TokenExplained, Perform, Grounded, Timely, Conserved;
      } else {
        OneOfferStaysExplained(cfg, s, l, log, x, e, k);
        hide *;
      }
    }
    hide OfferExplained, ParExplained, CodeExplained, TokenExplained, Perform, Track, Grounded, Timely, Conserved, Target;
  }

  lemma OneParStaysExplained(s: State, l: Ledger, log: seq<Entry>, x: Entry, e: Effect, k: string)
    requires Wf(s) && Grounded(s, e) && Conserved(s, l, |log|) && Target(s, e) != Some(InPar(k))
    requires k in Perform(s, e).parRequests && ParsExplained(s, l, log)
    ensures ParExplained(log + [x], Track(l, s, |log|, e), k, Perform(s, e).parRequests[k])
  {
    var s', l' := Perform(s, e), Track(l, s, |log|, e);
    EffectStores(s, l, e, |log|);
    LedgerIsKept(s, l, e, |log|);
    hide Perform, Track, Target, Grounded, Conserved, ParExplained, Wf;
    assert k in s.parRequests && s'.parRequests[k] == s.parRequests[k];
    assert ParExplained(log, l, k, s.parRequests[k]);
    ParInLedger(log, l, k, s.parRequests[k]);
    ParStill(log, x, l, l', k, s.parRequests[k]);
  }

  lemma ParInLedger(log: seq<Entry>, l: Ledger, uri: string, par: ParRequest)
    requires ParExplained(log, l, uri, par)
    ensures uri in l.parOrigin
  {
  }

  lemma ParsStayExplained(cfg: Config, s: State, l: Ledger, log: seq<Entry>, x: Entry, e: Effect)
    requires Wf(s) && Grounded(s, e) && Timely(cfg, s, x, e) && Conserved(s, l, |log|)
    requires ParsExplained(s, l, log)
    ensures ParsExplained(Perform(s, e), Track(l, s, |log|, e), log + [x])
  {
    var s', l' := Perform(s, e), Track(l, s, |log|, e);
    forall k | k in s'.parRequests
      ensures ParExplained(log + [x], l', k, s'.parRequests[k])
    {
      if Target(s, e) == Some(InPar(k)) {
        ParArrived(s, e);
        NewParExplained(cfg, s, l, log, x, e);
        hide *;
      } else {
        OneParStaysExplained(s, l, log, x, e, k);
        hide *;
      }
    }
    hide ParExplained, Perform, Track, Grounded, Timely, Conserved, Target;
  }

  lemma ParArrived(s: State, e: Effect)
    requires Wf(s)
    ensures e.AddPar? ==> e.uri in Perform(s, e).parRequests && Perform(s, e).parRequests[e.uri] == e.par
    ensures forall u :: Target(s, e) == Some(InPar(u)) ==> e.AddPar? && e.uri == u
  {
    hide Wf;
  }

  lemma OneCodeStaysExplained(cfg: Config, s: State, l: Ledger, log: seq<Entry>, x: Entry, e: Effect, k: string)
    requires Wf(s) && Grounded(s, e) && Conserved(s, l, |log|) && Wf(Perform(s, e)) && Target(s, e) != Some(InCodes(k))
    requires k in Perform(s, e).authCodes && CodesExplained(s, l, log)
    ensures var s', l' := Perform(s, e), Track(l, s, |log|, e); CodeExplained(log + [x], l', k, s'.authCodes[k], s'.heap[s'.authCodes[k].pending])
  {
    var s', l' := Perform(s, e), Track(l, s, |log|, e);
    PlaceRefs(s', l');
    RecordUntouched(s, l, e, |log|, InCodes(k));
    HeldInStore(s, l, InCodes(k));
    hide Perform, Track, Target, RefAt, Held, Grounded, Conserved;
    CodeStill(log, x, l, l', k, s.authCodes[k], s.heap[s.authCodes[k].pending]);
    hide OfferExplained, CodeExplained, TokenExplained;
  }

  lemma CodesStayExplained(cfg: Config, s: State, l: Ledger, log: seq<Entry>, x: Entry, e: Effect)
    requires Wf(s) && Grounded(s, e) && Timely(cfg, s, x, e) && Conserved(s, l, |log|) && Wf(Perform(s, e))
    requires CodesExplained(s, l, log) && ParsExplained(s, l, log)
    ensures CodesExplained(Perform(s, e), Track(l, s, |log|, e), log + [x])
  {
    var s', l' := Perform(s, e), Track(l, s, |log|, e);
    forall k | k in s'.authCodes
      ensures CodeExplained(log + [x], l', k, s'.authCodes[k], s'.heap[s'.authCodes[k].pending])
    {
      if Target(s, e) == Some(InCodes(k)) {
        Arrived(s, e);
        NewCodeExplained(cfg, s, l, log, x, e);
        hide OfferExplained, ParExplained, CodeExplained, TokenExplained, Perform, Grounded, Timely, Conserved;
      } else {
        OneCodeStaysExplained(cfg, s, l, log, x, e, k);
        hide *;
      }
    }
    hide OfferExplained, ParExplained, CodeExplained, TokenExplained, Perform, Track, Grounded, Timely, Conserved, Target;
  }

  lemma OneTokenStaysExplained(cfg: Config, s: State, l: Ledger, log: seq<Entry>, x: Entry, e: Effect, k: string)
    requires Wf(s) && Grounded(s, e) && Conserved(s, l, |log|) && Wf(Perform(s, e)) && Target(s, e) != Some(InTokens(k))
    requires k in Perform(s, e).accessTokens && TokensExplained(cfg, s, l, log)
    ensures var s', l' := Perform(s, e), Track(l, s, |log|, e); TokenExplained(cfg, log + [x], l', s'.accessTokens[k], s'.heap[s'.accessTokens[k]])
  {
    var s', l' := Perform(s, e), Track(l, s, |log|, e);
    PlaceRefs(s', l');
    RecordUntouched(s, l, e, |log|, InTokens(k));
    HeldInStore(s, l, InTokens(k));
    hide Perform, Track, Target, RefAt, Held, Grounded, Conserved;
    TokenStill(cfg, log, x, l, l', s.accessTokens[k], s.heap[s.accessTokens[k]]);
    hide OfferExplained, CodeExplained, TokenExplained;
  }

  lemma TokensStayExplained(cfg: Config, s: State, l: Ledger, log: seq<Entry>, x: Entry, e: Effect)
    requires Wf(s) && Grounded(s, e) && Timely(cfg, s, x, e) && Conserved(s, l, |log|) && Wf(Perform(s, e))
    requires OffersExplained(s, l, log) && CodesExplained(s, l, log) && TokensExplained(cfg, s, l, log)
    ensures TokensExplained(cfg, Perform(s, e), Track(l, s, |log|, e), log + [x])
  {
    var s', l' := Perform(s, e), Track(l, s, |log|, e);
    forall k | k in s'.accessTokens
      ensures TokenExplained(cfg, log + [x], l', s'.accessTokens[k], s'.heap[s'.accessTokens[k]])
    {
      if Target(s, e) == Some(InTokens(k)) {
        Arrived(s, e);
        NewTokenExplained(cfg, s, l, log, x, e);
        hide OfferExplained, ParExplained, CodeExplained, TokenExplained, Perform, Grounded, Timely, Conserved;
      } else {
        OneTokenStaysExplained(cfg, s, l, log, x, e, k);
        hide *;
      }
    }
    hide OfferExplained, ParExplained, CodeExplained, TokenExplained, Perform, Track, Grounded, Timely, Conserved, Target;
  }

  lemma OneFlightStaysExplained(cfg: Config, s: State, l: Ledger, log: seq<Entry>, x: Entry, e: Effect, k: nat)
    requires Wf(s) && Grounded(s, e) && Conserved(s, l, |log|) && Wf(Perform(s, e)) && Target(s, e) != Some(InFlight(k))
    requires k in Perform(s, e).flights && FlightsExplained(cfg, s, l, log)
    ensures var s', l' := Perform(s, e), Track(l, s, |log|, e); TokenExplained(cfg, log + [x], l', s'.flights[k].pending, s'.heap[s'.flights[k].pending])
  {
    var s', l' := Perform(s, e), Track(l, s, |log|, e);
    PlaceRefs(s', l');
    RecordUntouched(s, l, e, |log|, InFlight(k));
    HeldInStore(s, l, InFlight(k));
    hide Perform, Track, Target, RefAt, Held, Grounded, Conserved;
    TokenStill(cfg, log, x, l, l', s.flights[k].pending, s.heap[s.flights[k].pending]);
    hide OfferExplained, CodeExplained, TokenExplained;
  }

  lemma FlightsStayExplained(cfg: Config, s: State, l: Ledger, log: seq<Entry>, x: Entry, e: Effect)
    requires Wf(s) && Grounded(s, e) && Timely(cfg, s, x, e) && Conserved(s, l, |log|) && Wf(Perform(s, e))
    requires TokensExplained(cfg, s, l, log) && FlightsExplained(cfg, s, l, log)
    ensures FlightsExplained(cfg, Perform(s, e), Track(l, s, |log|, e), log + [x])
  {
    var s', l' := Perform(s, e), Track(l, s, |log|, e);
    forall k | k in s'.flights
      ensures TokenExplained(cfg, log + [x], l', s'.flights[k].pending, s'.heap[s'.flights[k].pending])
    {
      if Target(s, e) == Some(InFlight(k)) {
        Arrived(s, e);
        TokenStill(cfg, log, x, l, l', s.accessTokens[e.token], s.heap[s.accessTokens[e.token]]);
        hide OfferExplained, ParExplained, CodeExplained, TokenExplained, Perform, Grounded, Timely, Conserved;
      } else {
        OneFlightStaysExplained(cfg, s, l, log, x, e, k);
        hide *;
      }
    }
    hide OfferExplained, ParExplained, CodeExplained, TokenExplained, Perform, Track, Grounded, Timely, Conserved, Target;
  }

  // -------------------------------------------------------------- every run

  ghost predicate Invariant(cfg: Config, s: State, l: Ledger, log: seq<Entry>) {
    && Wf(s) && Conserved(s, l, |log|) && IndicesDistinct(s, l) && Capped(s) && Explained(cfg, s, l, log)
  }

  lemma StepKeepsInvariant(cfg: Config, s: State, l: Ledger, log: seq<Entry>, now: int, event: Event)
    requires Invariant(cfg, s, l, log)
    ensures var (e, response) := Decide(cfg, s, now, event);
            Invariant(cfg, Perform(s, e), Track(l, s, |log|, e), log + [Entry(now, event, response)])
  {
    var (e, response) := Decide(cfg, s, now, event);
    var x := Entry(now, event, response);
    DecisionsAreTimely(cfg, s, now, event);
    GroundedKeepsWf(s, e);
    EffectTransfers(s, l, e, |log|);
    EffectKeepsIndices(s, l, e, |log|);
    EffectKeepsCaps(s, e);
    OffersStayExplained(cfg, s, l, log, x, e);
    ParsStayExplained(cfg, s, l, log, x, e);
    CodesStayExplained(cfg, s, l, log, x, e);
    TokensStayExplained(cfg, s, l, log, x, e);
    FlightsStayExplained(cfg, s, l, log, x, e);
    hide Decide, Perform, Track, Grounded, Timely, Wf, Conserved, IndicesDistinct, Capped;
    hide OffersExplained, ParsExplained, CodesExplained, TokensExplained, FlightsExplained;
  }
}
