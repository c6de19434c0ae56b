/** The issuer serves an honest holder under every interleaving: whatever others request in between, and whenever the
    sweep runs, each step of the flow succeeds while it is in time and no store is full. */
module IssuerService {
  import opened Basics
  import opened IssuerModel
  import opened IssuerGrants
  import opened IssuerTheorems
  import opened IssuerRuns

  /** What is stored at a place, with the pending record it refers to. */
  datatype Snapshot =
    | AnOffer(ref: Ref, record: Pending)
    | APar(par: ParRequest)
    | ACode(authCode: AuthCode, record: Pending)
    | AToken(ref: Ref, record: Pending)
    | AFlight(flight: Flight, record: Pending)

  function Snap(s: State, p: Place): Option<Snapshot>
    requires Wf(s)
  {
    match p
    case InOffers(k) => if k in s.offers then Some(AnOffer(s.offers[k], s.heap[s.offers[k]])) else None
    case InPar(k) => if k in s.parRequests then Some(APar(s.parRequests[k])) else None
    case InCodes(k) => if k in s.authCodes then Some(ACode(s.authCodes[k], s.heap[s.authCodes[k].pending])) else None
    case InTokens(k) => if k in s.accessTokens then Some(AToken(s.accessTokens[k], s.heap[s.accessTokens[k]])) else None
    case InFlight(q) => if q in s.flights then Some(AFlight(s.flights[q], s.heap[s.flights[q].pending])) else None
    case InIssued(_) => None
  }

  /** The event asks for, or mints, the name of this place. */
  predicate Names(event: Event, p: Place) {
    match event
    case PostOffer(_, code) => p == InOffers(code)
    case PostPar(_, _, _, uri) => p == InPar(uri)
    case GetAuthorize(uri, code) => p == InPar(uri) || p == InCodes(code)
    case PostToken(grant, token, _) => p == GrantPlace(grant) || p == InTokens(token)
    case PostCredential(q, token, _, _) => p == InTokens(token) || p == InFlight(q)
    case KeyImported(q, _) => p == InFlight(q)
    case ProofChecked(q, _) => p == InFlight(q)
    case CredentialSigned(q, _) => p == InFlight(q)
    case _ => false
  }

  /** When the sweep takes it away. */
  predicate Lasts(snap: Snapshot, now: int) {
    match snap
    case AnOffer(_, record) => Age(now, record.createdAt) <= PRE_AUTH_CODE_TTL_MS
    case APar(par) => now - par.createdAt <= PAR_TTL_MS
    case ACode(c, _) => now - c.createdAt <= AUTH_CODE_TTL_MS
    case AToken(_, record) => Age(now, record.issuedAt) <= ACCESS_TOKEN_TTL_MS
    case AFlight(_, _) => true
  }

  // -------------------------------------------------------- nobody else's step

  /** The places an effect takes from, other than by expiry, or puts to. */
  ghost predicate Touches(e: Effect, p: Place) {
    match e
    case AddOffer(code, _) => p == InOffers(code)
    case AddPar(uri, _) => p == InPar(uri)
    case DropPar(uri) => p == InPar(uri)
    case ParToCode(uri, code, _, _) => p == InPar(uri) || p == InCodes(code)
    case DropGrant(grant) => p == GrantPlace(grant)
    case GrantToToken(grant, _, _, token) => p == GrantPlace(grant) || p == InTokens(token)
    case BurnGrant(grant, _, _) => p == GrantPlace(grant)
    case DropToken(token) => p == InTokens(token)
    case TokenToFlight(token, q, _) => p == InTokens(token) || p == InFlight(q)
    case SetFlight(q, _) => p == InFlight(q)
    case Accept(q, _, _) => p == InFlight(q)
    case EndFlight(q) => p == InFlight(q)
    case Send(q, _) => p == InFlight(q)
    case _ => false
  }

  lemma OnlyTheNamed(cfg: Config, s: State, now: int, event: Event, p: Place)
    requires Wf(s) && !Names(event, p)
    ensures !Touches(Decide(cfg, s, now, event).0, p)
    ensures Decide(cfg, s, now, event).0.DropExpired? ==> event.Sweep? && Decide(cfg, s, now, event).0.now == now
  {
    hide PkceError, Wf, Age;
  }

  /** An untouched entry stays in its store. */
  lemma EntryStays(s: State, e: Effect, p: Place)
    requires Wf(s) && Snap(s, p).Some? && !Touches(e, p) && (e.DropExpired? ==> Lasts(Snap(s, p).value, e.now))
    ensures p.InOffers? ==> p.code in Perform(s, e).offers && Perform(s, e).offers[p.code] == s.offers[p.code]
    ensures p.InPar? ==> p.uri in Perform(s, e).parRequests && Perform(s, e).parRequests[p.uri] == s.parRequests[p.uri]
    ensures p.InCodes? ==> p.code in Perform(s, e).authCodes && Perform(s, e).authCodes[p.code] == s.authCodes[p.code]
    ensures p.InTokens? ==> p.token in Perform(s, e).accessTokens && Perform(s, e).accessTokens[p.token] == s.accessTokens[p.token]
    ensures p.InFlight? ==> p.request in Perform(s, e).flights && Perform(s, e).flights[p.request] == s.flights[p.request]
  {
    hide Wf;
  }

  lemma SnapHolds(s: State, l: Ledger, p: Place)
    requires Wf(s) && Snap(s, p).Some? && !p.InPar?
    ensures RefAt(s, l, p).Some? && RefAt(s, l, p).value in s.heap
    ensures RefAt(s, l, p) == Some(match p
                                   case InOffers(k) => s.offers[k]
                                   case InCodes(k) => s.authCodes[k].pending
                                   case InTokens(k) => s.accessTokens[k]
                                   case InFlight(q) => s.flights[q].pending
                                   case _ => 0)
  {
  }

  /** The record of an untouched entry is not redeemed from under it. */
  lemma RecordStays(s: State, l: Ledger, n: nat, e: Effect, p: Place)
    requires Wf(s) && Grounded(s, e) && Conserved(s, l, n) && !Touches(e, p)
    requires RefAt(s, l, p).Some? && RefAt(s, l, p).value in s.heap
    ensures var r := RefAt(s, l, p).value; r in Perform(s, e).heap && Perform(s, e).heap[r] == s.heap[r]
  {
    HeapAfter(s, e);
    assert s.nextRef !in s.heap;
    if Redeems(e) {
      GrantPlaceHoldsRef(s, l, e.grant);
      GrantOfRef(s, l, GrantPlace(e.grant));
      GrantOfRef(s, l, p);
      assert GrantAt(s, l, p).Some?;
      assert p != GrantPlace(e.grant);
    }
    hide Perform, Wf, Held, RefAt, GrantAt;
  }

  /** A step that does not name a place, and a sweep in time, leave what is there. */
  lemma StepLeaves(cfg: Config, s: State, l: Ledger, n: nat, now: int, event: Event, p: Place)
    requires Wf(s) && Conserved(s, l, n) && Snap(s, p).Some? && !Names(event, p) && (event.Sweep? ==> Lasts(Snap(s, p).value, now))
    ensures Wf(Step(cfg, s, now, event).0) && Snap(Step(cfg, s, now, event).0, p) == Snap(s, p)
  {
    var e := Decide(cfg, s, now, event).0;
    OnlyTheNamed(cfg, s, now, event, p);
    DecisionsAreGrounded(cfg, s, now, event);
    StepKeepsWf(cfg, s, now, event);
    EntryStays(s, e, p);
    if !p.InPar? {
      SnapHolds(s, l, p);
      RecordStays(s, l, n, e, p);
    }
    hide Decide, Perform, Wf, Conserved, Grounded, Touches, Lasts, RefAt;
  }

  // --------------------------------------------------------------- whole runs

  /** From position `i` up to `j` nobody else names the place. */
  ghost predicate Undisturbed(input: seq<Timed>, i: nat, j: nat, p: Place) {
    i <= j <= |input| && forall k :: i <= k < j ==> !Names(input[k].event, p)
  }

  /** The state before the event at position `n`, and the response to it. */
  function StateAt(cfg: Config, input: seq<Timed>, n: nat): (s: State)
    requires n <= |input|
    ensures Wf(s)
  {
    Run(cfg, input[..n]).0
  }

  function ResponseAt(cfg: Config, input: seq<Timed>, n: nat): Response
    requires n < |input|
  {
    Run(cfg, input).1[n].response
  }

  lemma {:induction false} StepAt(cfg: Config, input: seq<Timed>, n: nat)
    requires n < |input|
    ensures Step(cfg, StateAt(cfg, input, n), input[n].now, input[n].event) == (StateAt(cfg, input, n + 1), ResponseAt(cfg, input, n))
    decreases |input|
  {
    hide Step, Wf;
    assert input[..n + 1][..n] == input[..n];
    var before := input[..|input| - 1];
    if n < |before| {
      StepAt(cfg, before, n);
      assert before[..n] == input[..n] && before[..n + 1] == input[..n + 1];
    } else {
      assert input[..n + 1] == input;
    }
  }

  /** Deadlines are monotone: what lasts until `later` lasts now. */
  lemma LastsEarlier(snap: Snapshot, now: int, later: int)
    requires Lasts(snap, later) && now <= later
    ensures Lasts(snap, now)
  {
  }

  lemma OneEarlier(input: seq<Timed>, i: nat, j: nat, p: Place, deadline: int)
    requires ClockRunsForward(input) && Undisturbed(input, i, j, p) && i < j < |input| && input[j].now <= deadline
    ensures input[j - 1].now <= deadline && !Names(input[j - 1].event, p) && Undisturbed(input, i, j - 1, p)
  {
    assert input[j - 1].now <= input[j].now;
    hide Names;
  }

  lemma {:induction false} StaysUntil(cfg: Config, input: seq<Timed>, i: nat, j: nat, p: Place, deadline: int)
    requires ClockRunsForward(input) && i <= j < |input| && Undisturbed(input, i, j, p) && input[j].now <= deadline
    requires Snap(StateAt(cfg, input, i), p).Some? && Lasts(Snap(StateAt(cfg, input, i), p).value, deadline)
    ensures Snap(StateAt(cfg, input, j), p) == Snap(StateAt(cfg, input, i), p)
    decreases j
  {
    hide *;
    if i < j {
      var s, x := StateAt(cfg, input, j - 1), input[j - 1];
      OneEarlier(input, i, j, p, deadline);
      StaysUntil(cfg, input, i, j - 1, p, deadline);
      StepAt(cfg, input, j - 1);
      LastsEarlier(Snap(StateAt(cfg, input, i), p).value, x.now, deadline);
      StateConserves(cfg, input, j - 1);
      StepLeaves(cfg, s, Past(cfg, input[..j - 1]), j - 1, x.now, x.event, p);
    }
  }

  lemma StateConserves(cfg: Config, input: seq<Timed>, n: nat)
    requires n <= |input|
    ensures Conserved(StateAt(cfg, input, n), Past(cfg, input[..n]), n)
  {
    RunKeepsInvariant(cfg, input[..n]);
    hide Run, Past, Conserved, IndicesDistinct, Capped, Explained;
  }

  // ----------------------------------------------------------- step by step

  lemma OfferServed(cfg: Config, s: State, now: int, configId: ConfigId, code: string)
    requires Wf(s) && !configId.Unknown? && |s.offers| < MAX_MAP_SIZE
    ensures var (s', r) := Step(cfg, s, now, PostOffer(Some(configId), code));
            && r == OfferCreated(code, configId) && Wf(s')
            && Snap(s', InOffers(code)) == Some(AnOffer(s.nextRef, Pending(configId, None, None, None, Some(now))))
  {
    StepKeepsWf(cfg, s, now, PostOffer(Some(configId), code));
  }

  lemma ParServed(cfg: Config, s: State, now: int, clientId: string, challenge: string, uri: string)
    requires Wf(s) && clientId != "" && challenge != "" && |s.parRequests| < MAX_MAP_SIZE
    ensures var (s', r) := Step(cfg, s, now, PostPar(clientId, challenge, true, uri));
            r == ParAccepted(uri) && Wf(s') && Snap(s', InPar(uri)) == Some(APar(ParRequest(clientId, challenge, now)))
  {
    StepKeepsWf(cfg, s, now, PostPar(clientId, challenge, true, uri));
  }

  lemma AuthorizeServed(cfg: Config, s: State, now: int, uri: string, par: ParRequest, code: string)
    requires Wf(s) && Snap(s, InPar(uri)) == Some(APar(par)) && Lasts(APar(par), now) && |s.authCodes| < MAX_MAP_SIZE
    ensures var (s', r) := Step(cfg, s, now, GetAuthorize(uri, code));
            && r == Authorized(code) && Wf(s')
            && Snap(s', InCodes(code)) ==
               Some(ACode(AuthCode(par.codeChallenge, par.clientId, s.nextRef, now), Pending(Pid, None, None, None, None)))
  {
    StepKeepsWf(cfg, s, now, GetAuthorize(uri, code));
  }

  /** The grant is there, in time, and the request matches it. */
  ghost predicate Redeemable(cfg: Config, s: State, now: int, grant: Grant, ref: Ref, record: Pending)
    requires Wf(s)
  {
    match grant
    case PreAuthorizedCode(code) => Snap(s, InOffers(code)) == Some(AnOffer(ref, record)) && Lasts(AnOffer(ref, record), now)
    case AuthorizationCode(code, clientId, verifier) =>
      code in s.authCodes &&
      var c := s.authCodes[code];
      && Snap(s, InCodes(code)) == Some(ACode(c, record)) && c.pending == ref && Lasts(ACode(c, record), now)
      && clientId == Some(c.clientId) && verifier.Some? && verifier.value != "" && cfg.s256(verifier.value) == c.codeChallenge
  }

  lemma TokenServed(cfg: Config, s: State, now: int, grant: Grant, ref: Ref, record: Pending, token: string, nonce: string)
    requires Wf(s) && Redeemable(cfg, s, now, grant, ref, record) && |s.accessTokens| < MAX_MAP_SIZE
    ensures var (s', r) := Step(cfg, s, now, PostToken(grant, token, nonce));
            && r == TokenIssued(token, nonce) && Wf(s')
            && Snap(s', InTokens(token)) == Some(AToken(ref, record.(accessToken := Some(token), cNonce := Some(nonce), issuedAt := Some(now))))
  {
    StepKeepsWf(cfg, s, now, PostToken(grant, token, nonce));
    assert Redeem(cfg, s, now, grant) == Redeemed(ref);
    RedeemedIsGrantRef(cfg, s, now, grant);
    hide Redeem;
  }

  lemma CredentialRequestServed(cfg: Config, s: State, now: int, q: nat, token: string, ref: Ref, record: Pending)
    requires Wf(s) && Snap(s, InTokens(token)) == Some(AToken(ref, record)) && Lasts(AToken(ref, record), now) && q !in s.flights
    ensures var (s', r) := Step(cfg, s, now, PostCredential(q, token, true, true));
            r == Awaiting && Wf(s') && Snap(s', InFlight(q)) == Some(AFlight(ImportingKey(ref), record))
  {
    StepKeepsWf(cfg, s, now, PostCredential(q, token, true, true));
  }

  lemma KeyServed(cfg: Config, s: State, now: int, q: nat, ref: Ref, record: Pending)
    requires Wf(s) && Snap(s, InFlight(q)) == Some(AFlight(ImportingKey(ref), record))
    ensures var (s', r) := Step(cfg, s, now, KeyImported(q, true));
            r == Awaiting && Wf(s') && Snap(s', InFlight(q)) == Some(AFlight(CheckingProof(ref), record))
  {
    StepKeepsWf(cfg, s, now, KeyImported(q, true));
  }

  lemma ProofServed(cfg: Config, s: State, now: int, q: nat, ref: Ref, record: Pending, nonce: string)
    requires Wf(s) && Snap(s, InFlight(q)) == Some(AFlight(CheckingProof(ref), record))
    requires record.cNonce == Some(nonce) && Age(now, record.issuedAt) <= C_NONCE_TTL_MS
    ensures var (s', r) := Step(cfg, s, now, ProofChecked(q, Some(Proof(Some(nonce), Some(cfg.issuerUrl)))));
            && r == ProofAccepted(s.nextStatusIdx, record.configId) && Wf(s')
            && Snap(s', InFlight(q)) == Some(AFlight(Signing(ref, s.nextStatusIdx), record))
  {
    StepKeepsWf(cfg, s, now, ProofChecked(q, Some(Proof(Some(nonce), Some(cfg.issuerUrl)))));
  }

  lemma SignatureServed(cfg: Config, s: State, now: int, q: nat, ref: Ref, idx: nat, record: Pending)
    requires Wf(s) && Snap(s, InFlight(q)) == Some(AFlight(Signing(ref, idx), record))
    ensures Step(cfg, s, now, CredentialSigned(q, true)).1 == Credential(idx, record.configId)
  {
  }

  // ------------------------------------------------------------- the promise

  /** Seven positions of a run: the last four and the token request belong to one holder. */
  datatype Visit = Visit(token: nat, ask: nat, key: nat, proof: nat, sign: nat, request: nat, accessToken: string, cNonce: string)

  /** The holder redeems a grant and goes on to its credential, in time, and undisturbed by others who would have
      to know its token. */
  ghost predicate Honest(cfg: Config, input: seq<Timed>, v: Visit, grant: Grant) {
    && v.token < v.ask < v.key < v.proof < v.sign < |input|
    && input[v.token].event == PostToken(grant, v.accessToken, v.cNonce)
    && input[v.ask].event == PostCredential(v.request, v.accessToken, true, true)
    && input[v.key].event == KeyImported(v.request, true)
    && input[v.proof].event == ProofChecked(v.request, Some(Proof(Some(v.cNonce), Some(cfg.issuerUrl))))
    && input[v.sign].event == CredentialSigned(v.request, true)
    && input[v.proof].now - input[v.token].now <= C_NONCE_TTL_MS
    && Undisturbed(input, v.token + 1, v.ask, InTokens(v.accessToken))
    && Undisturbed(input, v.ask + 1, v.key, InFlight(v.request)) && Undisturbed(input, v.key + 1, v.proof, InFlight(v.request))
    && Undisturbed(input, v.proof + 1, v.sign, InFlight(v.request))
  }

  lemma Visiting(cfg: Config, input: seq<Timed>, v: Visit, grant: Grant)
    requires ClockRunsForward(input) && Honest(cfg, input, v, grant)
    ensures v.token < v.ask < v.key < v.proof < v.sign < |input|
    ensures input[v.token].event == PostToken(grant, v.accessToken, v.cNonce)
    ensures input[v.ask].event == PostCredential(v.request, v.accessToken, true, true) && input[v.key].event == KeyImported(v.request, true)
    ensures input[v.proof].event == ProofChecked(v.request, Some(Proof(Some(v.cNonce), Some(cfg.issuerUrl))))
    ensures input[v.sign].event == CredentialSigned(v.request, true)
    ensures Undisturbed(input, v.token + 1, v.ask, InTokens(v.accessToken))
    ensures Undisturbed(input, v.ask + 1, v.key, InFlight(v.request)) && Undisturbed(input, v.key + 1, v.proof, InFlight(v.request))
    ensures Undisturbed(input, v.proof + 1, v.sign, InFlight(v.request))
    ensures input[v.proof].now - input[v.token].now <= C_NONCE_TTL_MS
    ensures forall ref, p: Pending :: p.issuedAt == Some(input[v.token].now) ==> Lasts(AToken(ref, p), input[v.ask].now)
  {
    assert input[v.ask].now <= input[v.proof].now;
  }

  /** From the token request to the suspended credential handler. */
  lemma TokenIsUsable(cfg: Config, input: seq<Timed>, v: Visit, grant: Grant, ref: Ref, record: Pending, given: Pending)
    requires ClockRunsForward(input) && Honest(cfg, input, v, grant) && v.token < v.ask < |input|
    requires Redeemable(cfg, StateAt(cfg, input, v.token), input[v.token].now, grant, ref, record)
    requires |StateAt(cfg, input, v.token).accessTokens| < MAX_MAP_SIZE && v.request !in StateAt(cfg, input, v.ask).flights
    requires given == record.(accessToken := Some(v.accessToken), cNonce := Some(v.cNonce), issuedAt := Some(input[v.token].now))
    ensures ResponseAt(cfg, input, v.token) == TokenIssued(v.accessToken, v.cNonce)
    ensures Snap(StateAt(cfg, input, v.ask + 1), InFlight(v.request)) == Some(AFlight(ImportingKey(ref), given))
  {
    hide *;
    Visiting(cfg, input, v, grant);
    StepAt(cfg, input, v.token);
    StepAt(cfg, input, v.ask);
    TokenServed(cfg, StateAt(cfg, input, v.token), input[v.token].now, grant, ref, record, v.accessToken, v.cNonce);
    assert Lasts(AToken(ref, given), input[v.ask].now);
    StaysUntil(cfg, input, v.token + 1, v.ask, InTokens(v.accessToken), input[v.ask].now);
    CredentialRequestServed(cfg, StateAt(cfg, input, v.ask), input[v.ask].now, v.request, v.accessToken, ref, given);
  }

  lemma AgeSince(p: Pending, t: int, now: int)
    requires p.issuedAt == Some(t)
    ensures Age(now, p.issuedAt) == now - t
  {
  }

  /** From the suspended credential handler to the accepted proof. */
  lemma ProofIsAccepted(cfg: Config, input: seq<Timed>, v: Visit, grant: Grant, ref: Ref, given: Pending)
    requires ClockRunsForward(input) && Honest(cfg, input, v, grant) && v.token < v.ask < v.proof < |input|
    requires Snap(StateAt(cfg, input, v.ask + 1), InFlight(v.request)) == Some(AFlight(ImportingKey(ref), given))
    requires given.cNonce == Some(v.cNonce) && given.issuedAt == Some(input[v.token].now)
    ensures ResponseAt(cfg, input, v.proof) == ProofAccepted(StateAt(cfg, input, v.proof).nextStatusIdx, given.configId)
    ensures Snap(StateAt(cfg, input, v.proof + 1), InFlight(v.request)) ==
            Some(AFlight(Signing(ref, StateAt(cfg, input, v.proof).nextStatusIdx), given))
  {
    hide *;
    var q := v.request;
    Visiting(cfg, input, v, grant);
    StepAt(cfg, input, v.key);
    StepAt(cfg, input, v.proof);
    FlightStays(cfg, input, v.ask + 1, v.key, q);
    KeyServed(cfg, StateAt(cfg, input, v.key), input[v.key].now, q, ref, given);
    FlightStays(cfg, input, v.key + 1, v.proof, q);
    AgeSince(given, input[v.token].now, input[v.proof].now);
    ProofServed(cfg, StateAt(cfg, input, v.proof), input[v.proof].now, q, ref, given, v.cNonce);
  }

  /** From a token to the credential: served at every step, for the configuration of the grant. */
  lemma HolderOfTokenIsServed(cfg: Config, input: seq<Timed>, v: Visit, grant: Grant, ref: Ref, record: Pending)
    requires ClockRunsForward(input) && Honest(cfg, input, v, grant) && v.token < v.ask < v.proof < v.sign < |input|
    requires Redeemable(cfg, StateAt(cfg, input, v.token), input[v.token].now, grant, ref, record)
    requires |StateAt(cfg, input, v.token).accessTokens| < MAX_MAP_SIZE && v.request !in StateAt(cfg, input, v.ask).flights
    ensures Served(cfg, input, v, record.configId)
  {
    hide Run, Step, Snap, Wf, Redeemable, ClockRunsForward, Undisturbed, Honest, StateAt, ResponseAt, Lasts;
    var given := record.(accessToken := Some(v.accessToken), cNonce := Some(v.cNonce), issuedAt := Some(input[v.token].now));
    Visiting(cfg, input, v, grant);
    StepAt(cfg, input, v.sign);
    TokenIsUsable(cfg, input, v, grant, ref, record, given);
    ProofIsAccepted(cfg, input, v, grant, ref, given);
    FlightStays(cfg, input, v.proof + 1, v.sign, v.request);
    SignatureServed(cfg, StateAt(cfg, input, v.sign), input[v.sign].now, v.request, ref, StateAt(cfg, input, v.proof).nextStatusIdx, given);
  }

  /** The holder got a token, had its proof accepted, and received the credential of that index and configuration. */
  ghost predicate Served(cfg: Config, input: seq<Timed>, v: Visit, configId: ConfigId)
    requires v.token < |input| && v.proof < |input| && v.sign < |input|
  {
    && ResponseAt(cfg, input, v.token) == TokenIssued(v.accessToken, v.cNonce)
    && ResponseAt(cfg, input, v.proof).ProofAccepted?
    && ResponseAt(cfg, input, v.sign) == Credential(ResponseAt(cfg, input, v.proof).idx, configId)
  }

  lemma FlightStays(cfg: Config, input: seq<Timed>, i: nat, j: nat, q: nat)
    requires ClockRunsForward(input) && i <= j < |input| && Undisturbed(input, i, j, InFlight(q))
    requires Snap(StateAt(cfg, input, i), InFlight(q)).Some?
    ensures Snap(StateAt(cfg, input, j), InFlight(q)) == Snap(StateAt(cfg, input, i), InFlight(q))
  {
    assert Lasts(Snap(StateAt(cfg, input, i), InFlight(q)).value, input[j].now);
    hide *;
    StaysUntil(cfg, input, i, j, InFlight(q), input[j].now);
  }

  lemma OfferRedeemable(cfg: Config, s: State, now: int, code: string, ref: Ref, record: Pending)
    requires Wf(s) && Snap(s, InOffers(code)) == Some(AnOffer(ref, record)) && Lasts(AnOffer(ref, record), now)
    ensures Redeemable(cfg, s, now, PreAuthorizedCode(code), ref, record)
  {
  }

  lemma OfferLasts(ref: Ref, configId: ConfigId, created: int, now: int)
    requires now - created <= PRE_AUTH_CODE_TTL_MS
    ensures Lasts(AnOffer(ref, Pending(configId, None, None, None, Some(created))), now)
  {
  }

  /** Pre-authorized code: an offer redeemed within 30 s leads to a credential of the offered configuration, under
      every interleaving with others and with the sweep. */
  lemma {:induction false} OfferLeadsToCredential(cfg: Config, input: seq<Timed>, o: nat, v: Visit, configId: ConfigId, code: string)
    requires ClockRunsForward(input) && o < v.token < v.ask < v.proof < v.sign < |input|
    requires Honest(cfg, input, v, PreAuthorizedCode(code)) && !configId.Unknown?
    requires input[o].event == PostOffer(Some(configId), code) && Undisturbed(input, o + 1, v.token, InOffers(code))
    requires input[v.token].now - input[o].now <= PRE_AUTH_CODE_TTL_MS
    requires |StateAt(cfg, input, o).offers| < MAX_MAP_SIZE && |StateAt(cfg, input, v.token).accessTokens| < MAX_MAP_SIZE
    requires v.request !in StateAt(cfg, input, v.ask).flights
    ensures ResponseAt(cfg, input, o) == OfferCreated(code, configId) && Served(cfg, input, v, configId)
  {
    hide *;
    var record := Pending(configId, None, None, None, Some(input[o].now));
    var ref := StateAt(cfg, input, o).nextRef;
    StepAt(cfg, input, o);
    OfferServed(cfg, StateAt(cfg, input, o), input[o].now, configId, code);
    OfferLasts(ref, configId, input[o].now, input[v.token].now);
    StaysUntil(cfg, input, o + 1, v.token, InOffers(code), input[v.token].now);
    OfferRedeemable(cfg, StateAt(cfg, input, v.token), input[v.token].now, code, ref, record);
    HolderOfTokenIsServed(cfg, input, v, PreAuthorizedCode(code), ref, record);
  }

  lemma CodeRedeemable(cfg: Config, s: State, now: int, code: string, c: AuthCode, record: Pending, verifier: string)
    requires Wf(s) && Snap(s, InCodes(code)) == Some(ACode(c, record)) && Lasts(ACode(c, record), now)
    requires verifier != "" && cfg.s256(verifier) == c.codeChallenge
    ensures Redeemable(cfg, s, now, AuthorizationCode(code, Some(c.clientId), Some(verifier)), c.pending, record)
  {
  }

  lemma ParLasts(par: ParRequest, c: AuthCode, record: Pending, t1: int, t2: int)
    requires t1 - par.createdAt <= PAR_TTL_MS && t2 - c.createdAt <= AUTH_CODE_TTL_MS
    ensures Lasts(APar(par), t1) && Lasts(ACode(c, record), t2)
  {
  }

  /** Authorization code with PAR and PKCE: each step in its time, with the verifier that answers the challenge,
      leads to a PID credential. */
  lemma {:induction false} ParLeadsToCredential(
    cfg: Config, input: seq<Timed>, p: nat, a: nat, v: Visit, clientId: string, verifier: string, uri: string, code: string)
    requires ClockRunsForward(input) && p < a < v.token < v.ask < v.proof < v.sign < |input|
    requires Honest(cfg, input, v, AuthorizationCode(code, Some(clientId), Some(verifier)))
    requires clientId != "" && verifier != "" && cfg.s256(verifier) != ""
    requires input[p].event == PostPar(clientId, cfg.s256(verifier), true, uri) && input[a].event == GetAuthorize(uri, code)
    requires Undisturbed(input, p + 1, a, InPar(uri)) && Undisturbed(input, a + 1, v.token, InCodes(code))
    requires input[a].now - input[p].now <= PAR_TTL_MS && input[v.token].now - input[a].now <= AUTH_CODE_TTL_MS
    requires |StateAt(cfg, input, p).parRequests| < MAX_MAP_SIZE && |StateAt(cfg, input, a).authCodes| < MAX_MAP_SIZE
    requires |StateAt(cfg, input, v.token).accessTokens| < MAX_MAP_SIZE && v.request !in StateAt(cfg, input, v.ask).flights
    ensures ResponseAt(cfg, input, p) == ParAccepted(uri) && ResponseAt(cfg, input, a) == Authorized(code)
    ensures Served(cfg, input, v, Pid)
  {
    hide *;
    var par := ParRequest(clientId, cfg.s256(verifier), input[p].now);
    var record := Pending(Pid, None, None, None, None);
    var c := AuthCode(par.codeChallenge, clientId, StateAt(cfg, input, a).nextRef, input[a].now);
    StepAt(cfg, input, p);
    StepAt(cfg, input, a);
    ParServed(cfg, StateAt(cfg, input, p), input[p].now, clientId, par.codeChallenge, uri);
    ParLasts(par, c, record, input[a].now, input[v.token].now);
    StaysUntil(cfg, input, p + 1, a, InPar(uri), input[a].now);
    AuthorizeServed(cfg, StateAt(cfg, input, a), input[a].now, uri, par, code);
    StaysUntil(cfg, input, a + 1, v.token, InCodes(code), input[v.token].now);
    CodeRedeemable(cfg, StateAt(cfg, input, v.token), input[v.token].now, code, c, record, verifier);
    HolderOfTokenIsServed(cfg, input, v, AuthorizationCode(code, Some(clientId), Some(verifier)), c.pending, record);
  }
}
