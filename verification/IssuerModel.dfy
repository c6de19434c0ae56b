/** The OpenID4VCI issuer as a state machine. One step is one stretch of handler code between two awaits, so a
    /credential request takes four. Pending records live in an explicit heap: stores and suspended handlers
    hold references to them, as the program's objects do. */
module IssuerModel {
  import opened Basics

  /** `eu.europa.ec.eudi.pid.1`, `org.iso.18013.5.1.mDL`, or any other configuration identifier a client may send. */
  datatype ConfigId = Pid | Mdl | Unknown(name: string)

  const ACCESS_TOKEN_TTL_MS := 300_000
  const C_NONCE_TTL_MS := 300_000
  const AUTH_CODE_TTL_MS := 60_000
  const PAR_TTL_MS := 90_000
  const PRE_AUTH_CODE_TTL_MS := 30_000
  const MAX_MAP_SIZE := 10_000
  const STATUS_LIST_SIZE := 1024

  // ------------------------------------------------------------------- state

  type Ref = nat

  datatype Pending = Pending(
    configId: ConfigId, cNonce: Option<string>, accessToken: Option<string>, issuedAt: Option<int>, createdAt: Option<int>)

  datatype ParRequest = ParRequest(clientId: string, codeChallenge: string, createdAt: int)

  datatype AuthCode = AuthCode(codeChallenge: string, clientId: string, pending: Ref, createdAt: int)

  /** A /credential handler suspended at one of its awaits. */
  datatype Flight =
    | ImportingKey(pending: Ref)
    | CheckingProof(pending: Ref)
    | Signing(pending: Ref, idx: nat)

  /** The admin log; the subject is the PID's family name, or the word mDL. */
  datatype Subject = FamilyName | MdlSubject
  datatype IssuedRecord = IssuedRecord(idx: nat, subject: Subject, issuedAt: int)

  datatype State = State(
    heap: map<Ref, Pending>, nextRef: Ref,
    offers: map<string, Ref>, parRequests: map<string, ParRequest>,
    authCodes: map<string, AuthCode>, accessTokens: map<string, Ref>,
    flights: map<nat, Flight>,
    nextStatusIdx: nat, issuedRecords: seq<IssuedRecord>, revoked: set<int>)

  const INIT := State(map[], 0, map[], map[], map[], map[], map[], 0, [], {})

  /** No reference dangles and every allocated reference is older than the next one. */
  ghost predicate Wf(s: State) {
    && (forall r :: r in s.heap ==> r < s.nextRef)
    && (forall k :: k in s.offers ==> s.offers[k] in s.heap)
    && (forall k :: k in s.authCodes ==> s.authCodes[k].pending in s.heap)
    && (forall k :: k in s.accessTokens ==> s.accessTokens[k] in s.heap)
    && (forall k :: k in s.flights ==> s.flights[k].pending in s.heap)
  }

  // -------------------------------------------------------- events, responses

  datatype Grant =
    | AuthorizationCode(code: string, clientId: Option<string>, codeVerifier: Option<string>)
    | PreAuthorizedCode(preAuthCode: string)

  /** The claims of a proof whose signature verified. */
  datatype Proof = Proof(nonce: Option<string>, aud: Option<string>)

  /** Random identifiers are inputs. A `request` names one /credential handler over its whole life. */
  datatype Event =
    | Sweep
    | PostOffer(configId: Option<ConfigId>, offerCode: string)
    | PostPar(clientId: string, codeChallenge: string, isS256: bool, newUri: string)
    | GetAuthorize(requestUri: string, newCode: string)
    | PostToken(grant: Grant, newToken: string, newNonce: string)
    | PostCredential(request: nat, accessToken: string, hasProof: bool, hasHolderJwk: bool)
    | KeyImported(request: nat, imported: bool)
    | ProofChecked(request: nat, proof: Option<Proof>)
    | CredentialSigned(request: nat, signed: bool)
    | PostRevoke(idx: Option<int>)
    | GetStatusList

  datatype ErrorCode = InvalidRequest | InvalidGrant | InvalidToken | InvalidProof | TooManyRequests | ServerError

  /** What the step sent to the client, or how far a suspended handler got. */
  datatype Response =
    | Swept
    | OfferCreated(offerCode: string, configId: ConfigId)
    | ParAccepted(requestUri: string)
    | Authorized(code: string)
    | TokenIssued(accessToken: string, cNonce: string)
    | Awaiting
    | ProofAccepted(idx: nat, configId: ConfigId)
    | Credential(idx: nat, configId: ConfigId)
    | Revoked(revokedIdx: int)
    | StatusList(published: set<int>)
    | Failed(status: int, error: ErrorCode)
    | NoSuchHandler

  datatype Config = Config(issuerUrl: string, s256: string -> string)

  function Age(now: int, since: Option<int>): int {
    now - (match since case Some(t) => t case None => 0)
  }

  // ------------------------------------------------------------------- steps

  predicate OfferExpired(s: State, now: int, r: Ref)
    requires r in s.heap
  {
    Age(now, s.heap[r].createdAt) > PRE_AUTH_CODE_TTL_MS
  }

  predicate TokenExpired(s: State, now: int, r: Ref)
    requires r in s.heap
  {
    Age(now, s.heap[r].issuedAt) > ACCESS_TOKEN_TTL_MS
  }

  predicate ParExpired(now: int, p: ParRequest) { now - p.createdAt > PAR_TTL_MS }

  predicate CodeExpired(now: int, c: AuthCode) { now - c.createdAt > AUTH_CODE_TTL_MS }

  // ----------------------------------------------------------------- effects

  /** What a stretch of handler code does to the state. */
  datatype Effect =
    | Nothing
    | AddOffer(offerCode: string, record: Pending)
    | AddPar(uri: string, par: ParRequest)
    | DropPar(uri: string)
    | ParToCode(uri: string, code: string, authCode: AuthCode, record: Pending)
    | DropGrant(grant: Grant)
    | GrantToToken(grant: Grant, ref: Ref, record: Pending, token: string)
    | BurnGrant(grant: Grant, ref: Ref, record: Pending)
    | DropToken(token: string)
    | TokenToFlight(token: string, request: nat, flight: Flight)
    | SetFlight(request: nat, flight: Flight)
    | Accept(request: nat, flight: Flight, entry: seq<IssuedRecord>)
    | EndFlight(request: nat)
    | Send(request: nat, entry: seq<IssuedRecord>)
    | AddRevoked(index: int)
    | DropExpired(now: int)

  /** The keys under which a grant is stored: in one of the two stores. */
  function OfferKeys(grant: Grant): set<string> {
    if grant.PreAuthorizedCode? then {grant.preAuthCode} else {}
  }

  function CodeKeys(grant: Grant): set<string> {
    if grant.AuthorizationCode? then {grant.code} else {}
  }

  function Perform(s: State, e: Effect): State
    requires Wf(s)
  {
    match e
    case Nothing => s
    case AddOffer(code, record) =>
      s.(heap := s.heap[s.nextRef := record], nextRef := s.nextRef + 1, offers := s.offers[code := s.nextRef])
    case AddPar(uri, par) => s.(parRequests := s.parRequests[uri := par])
    case DropPar(uri) => s.(parRequests := s.parRequests - {uri})
    case ParToCode(uri, code, authCode, record) =>
      s.(heap := s.heap[s.nextRef := record], nextRef := s.nextRef + 1,
         authCodes := s.authCodes[code := authCode], parRequests := s.parRequests - {uri})
    case DropGrant(grant) => s.(offers := s.offers - OfferKeys(grant), authCodes := s.authCodes - CodeKeys(grant))
    case GrantToToken(grant, r, record, token) =>
      s.(offers := s.offers - OfferKeys(grant), authCodes := s.authCodes - CodeKeys(grant),
         heap := s.heap[r := record], accessTokens := s.accessTokens[token := r])
    case BurnGrant(grant, r, record) =>
      s.(offers := s.offers - OfferKeys(grant), authCodes := s.authCodes - CodeKeys(grant), heap := s.heap[r := record])
    case DropToken(token) => s.(accessTokens := s.accessTokens - {token})
    case TokenToFlight(token, request, flight) =>
      s.(accessTokens := s.accessTokens - {token}, flights := s.flights[request := flight])
    case SetFlight(request, flight) => s.(flights := s.flights[request := flight])
    case Accept(request, flight, entry) =>
      s.(flights := s.flights[request := flight], nextStatusIdx := s.nextStatusIdx + 1, issuedRecords := s.issuedRecords + entry)
    case EndFlight(request) => s.(flights := s.flights - {request})
    case Send(request, entry) => s.(flights := s.flights - {request}, issuedRecords := s.issuedRecords + entry)
    case AddRevoked(index) => s.(revoked := s.revoked + {index})
    case DropExpired(now) =>
      s.(offers := map k | k in s.offers && !OfferExpired(s, now, s.offers[k]) :: s.offers[k],
         parRequests := map k | k in s.parRequests && !ParExpired(now, s.parRequests[k]) :: s.parRequests[k],
         authCodes := map k | k in s.authCodes && !CodeExpired(now, s.authCodes[k]) :: s.authCodes[k],
         accessTokens := map k | k in s.accessTokens && !TokenExpired(s, now, s.accessTokens[k]) :: s.accessTokens[k])
  }

  // What effects do, component by component.

  lemma HeapAfter(s: State, e: Effect)
    requires Wf(s)
    ensures Perform(s, e).heap == if e.AddOffer? || e.ParToCode? then s.heap[s.nextRef := e.record]
                                  else if e.GrantToToken? || e.BurnGrant? then s.heap[e.ref := e.record] else s.heap
    ensures Perform(s, e).nextRef == if e.AddOffer? || e.ParToCode? then s.nextRef + 1 else s.nextRef
  {
  }

  lemma FlightsAfter(s: State, e: Effect)
    requires Wf(s)
    ensures Perform(s, e).flights == if e.TokenToFlight? || e.SetFlight? || e.Accept? then s.flights[e.request := e.flight]
                                     else if e.EndFlight? || e.Send? then s.flights - {e.request} else s.flights
    ensures Perform(s, e).nextStatusIdx == if e.Accept? then s.nextStatusIdx + 1 else s.nextStatusIdx
    ensures Perform(s, e).issuedRecords == if e.Accept? || e.Send? then s.issuedRecords + e.entry else s.issuedRecords
  {
  }

  // ---------------------------------------------------------------- handlers

  function DecideOffer(s: State, now: int, configId: Option<ConfigId>, code: string): (Effect, Response) {
    var id := match configId case Some(c) => c case None => Pid;
    if id.Unknown? then (Nothing, Failed(400, InvalidRequest))
    else if |s.offers| >= MAX_MAP_SIZE then (Nothing, Failed(429, TooManyRequests))
    else (AddOffer(code, Pending(id, None, None, None, Some(now))), OfferCreated(code, id))
  }

  function DecidePar(s: State, now: int, clientId: string, codeChallenge: string, isS256: bool, uri: string): (Effect, Response) {
    if clientId == "" || !isS256 || codeChallenge == "" then (Nothing, Failed(400, InvalidRequest))
    else if |s.parRequests| >= MAX_MAP_SIZE then (Nothing, Failed(429, TooManyRequests))
    else (AddPar(uri, ParRequest(clientId, codeChallenge, now)), ParAccepted(uri))
  }

  function DecideAuthorize(s: State, now: int, uri: string, code: string): (Effect, Response) {
    if uri !in s.parRequests then (Nothing, Failed(400, InvalidRequest))
    else if ParExpired(now, s.parRequests[uri]) then (DropPar(uri), Failed(400, InvalidRequest))
    else if |s.authCodes| >= MAX_MAP_SIZE then (Nothing, Failed(429, TooManyRequests))
    else
      var par := s.parRequests[uri];
      (ParToCode(uri, code, AuthCode(par.codeChallenge, par.clientId, s.nextRef, now), Pending(Pid, None, None, None, None)),
       Authorized(code))
  }

  /** `verifyPkce`: `None` when it returns. Digests of unequal length make the comparison itself throw. */
  function PkceError(cfg: Config, codeVerifier: Option<string>, codeChallenge: string): Option<Response> {
    if codeVerifier.None? || codeVerifier.value == "" then Some(Failed(400, InvalidRequest))
    else if |cfg.s256(codeVerifier.value)| != |codeChallenge| then Some(Failed(500, ServerError))
    else if cfg.s256(codeVerifier.value) != codeChallenge then Some(Failed(400, InvalidGrant))
    else None
  }

  /** Redeeming a grant: its pending record, or the effect and the error response. */
  datatype Redemption = Redeemed(ref: Ref) | Refused(effect: Effect, response: Response)

  function Redeem(cfg: Config, s: State, now: int, grant: Grant): Redemption
    requires Wf(s)
  {
    match grant
    case AuthorizationCode(code, clientId, codeVerifier) =>
      if code !in s.authCodes then Refused(Nothing, Failed(400, InvalidGrant))
      else
        var entry := s.authCodes[code];
        if CodeExpired(now, entry) || clientId != Some(entry.clientId) then Refused(DropGrant(grant), Failed(400, InvalidGrant))
        else
          var pkce := PkceError(cfg, codeVerifier, entry.codeChallenge);
          if pkce.Some? then Refused(Nothing, pkce.value) else Redeemed(entry.pending)
    case PreAuthorizedCode(code) =>
      if code !in s.offers then Refused(Nothing, Failed(400, InvalidGrant))
      else if OfferExpired(s, now, s.offers[code]) then Refused(DropGrant(grant), Failed(400, InvalidGrant))
      else Redeemed(s.offers[code])
  }

  function GrantRef(s: State, grant: Grant): Option<Ref> {
    match grant
    case AuthorizationCode(code, _, _) => if code in s.authCodes then Some(s.authCodes[code].pending) else None
    case PreAuthorizedCode(code) => if code in s.offers then Some(s.offers[code]) else None
  }

  lemma RedeemedIsGrantRef(cfg: Config, s: State, now: int, grant: Grant)
    requires Wf(s) && Redeem(cfg, s, now, grant).Redeemed?
    ensures GrantRef(s, grant) == Some(Redeem(cfg, s, now, grant).ref) && Redeem(cfg, s, now, grant).ref in s.heap
  {
  }

  function DecideToken(cfg: Config, s: State, now: int, grant: Grant, token: string, nonce: string): (Effect, Response)
    requires Wf(s)
  {
    match Redeem(cfg, s, now, grant)
    case Refused(effect, failure) => (effect, failure)
    case Redeemed(r) =>
      RedeemedIsGrantRef(cfg, s, now, grant);
      var record := s.heap[r].(accessToken := Some(token), cNonce := Some(nonce), issuedAt := Some(now));
      if |s.accessTokens| >= MAX_MAP_SIZE then (BurnGrant(grant, r, record), Failed(429, TooManyRequests))
      else (GrantToToken(grant, r, record, token), TokenIssued(token, nonce))
  }

  function DecideCredential(s: State, now: int, request: nat, token: string, hasProof: bool, hasHolderJwk: bool): (Effect, Response)
    requires Wf(s)
  {
    if request in s.flights then (Nothing, NoSuchHandler)
    else if token !in s.accessTokens then (Nothing, Failed(401, InvalidToken))
    else if TokenExpired(s, now, s.accessTokens[token]) then (DropToken(token), Failed(401, InvalidToken))
    else if !hasProof then (Nothing, Failed(400, InvalidProof))
    else if !hasHolderJwk then (DropToken(token), Failed(400, InvalidProof))
    else (TokenToFlight(token, request, ImportingKey(s.accessTokens[token])), Awaiting)
  }

  function DecideKey(s: State, request: nat, imported: bool): (Effect, Response) {
    if request !in s.flights || !s.flights[request].ImportingKey? then (Nothing, NoSuchHandler)
    else if !imported then (EndFlight(request), Failed(400, InvalidProof))
    else (SetFlight(request, CheckingProof(s.flights[request].pending)), Awaiting)
  }

  function DecideProof(cfg: Config, s: State, now: int, request: nat, proof: Option<Proof>): (Effect, Response)
    requires Wf(s)
  {
    if request !in s.flights || !s.flights[request].CheckingProof? then (Nothing, NoSuchHandler)
    else
      var r := s.flights[request].pending;
      var p := s.heap[r];
      if proof.None? || proof.value.nonce != p.cNonce || Age(now, p.issuedAt) > C_NONCE_TTL_MS
         || proof.value.aud != Some(cfg.issuerUrl)
      then (EndFlight(request), Failed(400, InvalidProof))
      else
        (Accept(request, Signing(r, s.nextStatusIdx),
                if p.configId == Mdl then [] else [IssuedRecord(s.nextStatusIdx, FamilyName, now)]),
         ProofAccepted(s.nextStatusIdx, p.configId))
  }

  function DecideSigned(s: State, now: int, request: nat, signed: bool): (Effect, Response)
    requires Wf(s)
  {
    if request !in s.flights || !s.flights[request].Signing? then (Nothing, NoSuchHandler)
    else if !signed then (EndFlight(request), Failed(500, ServerError))
    else
      var flight := s.flights[request];
      var configId := s.heap[flight.pending].configId;
      (Send(request, if configId == Mdl then [IssuedRecord(flight.idx, MdlSubject, now)] else []),
       Credential(flight.idx, configId))
  }

  function DecideRevoke(idx: Option<int>): (Effect, Response) {
    if idx.None? || idx.value < 0 || idx.value >= STATUS_LIST_SIZE then (Nothing, Failed(400, InvalidRequest))
    else (AddRevoked(idx.value), Revoked(idx.value))
  }

  function Decide(cfg: Config, s: State, now: int, e: Event): (Effect, Response)
    requires Wf(s)
  {
    match e
    case Sweep => (DropExpired(now), Swept)
    case PostOffer(configId, code) => DecideOffer(s, now, configId, code)
    case PostPar(clientId, challenge, isS256, uri) => DecidePar(s, now, clientId, challenge, isS256, uri)
    case GetAuthorize(uri, code) => DecideAuthorize(s, now, uri, code)
    case PostToken(grant, token, nonce) => DecideToken(cfg, s, now, grant, token, nonce)
    case PostCredential(request, token, hasProof, hasJwk) => DecideCredential(s, now, request, token, hasProof, hasJwk)
    case KeyImported(request, imported) => DecideKey(s, request, imported)
    case ProofChecked(request, proof) => DecideProof(cfg, s, now, request, proof)
    case CredentialSigned(request, signed) => DecideSigned(s, now, request, signed)
    case PostRevoke(idx) => DecideRevoke(idx)
    case GetStatusList => (Nothing, StatusList(s.revoked))
  }

  function Step(cfg: Config, s: State, now: int, e: Event): (State, Response)
    requires Wf(s)
  {
    var (effect, response) := Decide(cfg, s, now, e);
    (Perform(s, effect), response)
  }

  // ----------------------------------------------------- effects are grounded

  /** /token updates the issuance fields of a pending record and leaves what was offered. */
  predicate SameOffer(p: Pending, q: Pending) { p.configId == q.configId && p.createdAt == q.createdAt }

  /** A log entry for this index, or none. */
  predicate EntryFor(entry: seq<IssuedRecord>, idx: nat, present: bool) {
    if present then |entry| == 1 && entry[0].idx == idx else entry == []
  }

  /** What the handlers' guards establish about the effect they choose. */
  ghost predicate Grounded(s: State, e: Effect)
    requires Wf(s)
  {
    match e
    case AddOffer(_, _) => |s.offers| < MAX_MAP_SIZE
    case AddPar(_, _) => |s.parRequests| < MAX_MAP_SIZE
    case ParToCode(uri, _, authCode, _) =>
      uri in s.parRequests && authCode.pending == s.nextRef && |s.authCodes| < MAX_MAP_SIZE
    case GrantToToken(grant, r, record, _) =>
      GrantRef(s, grant) == Some(r) && r in s.heap && SameOffer(record, s.heap[r]) && |s.accessTokens| < MAX_MAP_SIZE
    case BurnGrant(grant, r, record) => GrantRef(s, grant) == Some(r) && r in s.heap && SameOffer(record, s.heap[r])
    case TokenToFlight(token, request, flight) =>
      token in s.accessTokens && request !in s.flights && flight == ImportingKey(s.accessTokens[token])
    case SetFlight(request, flight) => request in s.flights && flight == CheckingProof(s.flights[request].pending)
    case Accept(request, flight, entry) =>
      && request in s.flights && s.flights[request].CheckingProof? && flight == Signing(s.flights[request].pending, s.nextStatusIdx)
      && EntryFor(entry, s.nextStatusIdx, s.heap[flight.pending].configId != Mdl)
    case Send(request, entry) =>
      && request in s.flights && s.flights[request].Signing?
      && EntryFor(entry, s.flights[request].idx, s.heap[s.flights[request].pending].configId == Mdl)
    case AddRevoked(index) => 0 <= index < STATUS_LIST_SIZE
    case _ => true
  }

  lemma DecisionsAreGrounded(cfg: Config, s: State, now: int, e: Event)
    requires Wf(s)
    ensures Grounded(s, Decide(cfg, s, now, e).0)
  {
    if e.PostToken? && Redeem(cfg, s, now, e.grant).Redeemed? {
      RedeemedIsGrantRef(cfg, s, now, e.grant);
    }
  }

  /** The effects that create entries, drop entries, or redeem a grant; the others concern suspended handlers. */
  predicate Creates(e: Effect) { e.AddOffer? || e.AddPar? || e.ParToCode? }

  predicate Drops(e: Effect) { e.DropPar? || e.DropGrant? || e.DropToken? || e.DropExpired? }

  predicate Redeems(e: Effect) { e.GrantToToken? || e.BurnGrant? }

  lemma CreatingKeepsWf(s: State, e: Effect)
    requires Wf(s) && Grounded(s, e) && Creates(e)
    ensures Wf(Perform(s, e))
  {
  }

  lemma DroppingKeepsWf(s: State, e: Effect)
    requires Wf(s) && Grounded(s, e) && Drops(e)
    ensures Wf(Perform(s, e))
  {
  }

  lemma RedeemingKeepsWf(s: State, e: Effect)
    requires Wf(s) && Grounded(s, e) && Redeems(e)
    ensures Wf(Perform(s, e))
  {
  }

  lemma FlyingKeepsWf(s: State, e: Effect)
    requires Wf(s) && Grounded(s, e) && !Creates(e) && !Drops(e) && !Redeems(e)
    ensures Wf(Perform(s, e))
  {
  }

  lemma GroundedKeepsWf(s: State, e: Effect)
    requires Wf(s) && Grounded(s, e)
    ensures Wf(Perform(s, e))
  {
    if Creates(e) {
      CreatingKeepsWf(s, e);
    } else if Drops(e) {
      DroppingKeepsWf(s, e);
    } else if Redeems(e) {
      RedeemingKeepsWf(s, e);
    } else {
      FlyingKeepsWf(s, e);
    }
    hide Perform, Grounded, Wf;
  }

  lemma StepKeepsWf(cfg: Config, s: State, now: int, e: Event)
    requires Wf(s)
    ensures Wf(Step(cfg, s, now, e).0)
  {
    DecisionsAreGrounded(cfg, s, now, e);
    GroundedKeepsWf(s, Decide(cfg, s, now, e).0);
    hide Decide, Perform, Grounded;
  }

  // -------------------------------------------------------------------- runs

  datatype Timed = Timed(now: int, event: Event)
  datatype Entry = Entry(now: int, event: Event, response: Response)

  /** The clock readings never go backwards. */
  ghost predicate ClockRunsForward(input: seq<Timed>) {
    forall i, j :: 0 <= i <= j < |input| ==> input[i].now <= input[j].now
  }

  /** The state and the log of responses after these events, whatever their interleaving. */
  function Run(cfg: Config, input: seq<Timed>): (r: (State, seq<Entry>))
    ensures Wf(r.0) && |r.1| == |input|
  {
    if input == [] then (INIT, [])
    else
      var (s, log), last := Run(cfg, input[..|input| - 1]), input[|input| - 1];
      var (s', response) := Step(cfg, s, last.now, last.event);
      StepKeepsWf(cfg, s, last.now, last.event);
      (s', log + [Entry(last.now, last.event, response)])
  }
}
