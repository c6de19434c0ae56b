/** The OpenID4VP verifier as a state machine. One step is one stretch of handler code between two awaits, so a
    /presentation/response takes up to five. Sessions live in an explicit heap: a suspended handler goes on
    working on its session after the sweep has taken it out of the store. */
module VerifierModel {
  import opened Basics
  import opened Crypto
  import S = SdJwt
  import D = Mdoc
  import Q = Dcql
  import L = StatusLists
  import C = CompactForm

  const SESSION_TTL_MS := 300_000
  const MAX_MAP_SIZE := 10_000

  // ----------------------------------------------------------------- verdicts

  datatype Finding = SdJwtError(s: S.Error) | MdocError(m: D.Error) | CredentialRevoked | DcqlNotSatisfied(missing: seq<string>)

  datatype Verdict = Verdict(valid: bool, disclosed: Json, errors: seq<Finding>)

  /** Where a credential's status is listed. */
  datatype StatusRef = StatusRef(uri: Option<string>, idx: int)

  datatype Checked = Checked(verdict: Verdict, status: Option<StatusRef>)

  datatype Config = Config(
    verifierUrl: string, trusted: seq<string>, suite: Suite, codecs: D.Codecs, lists: L.ListCodec,
    sdJwtPaths: seq<Q.Path>, mdocPaths: seq<Q.Path>)

  /** The index of a status reference in bit arithmetic, where an absent one counts as 0. */
  function StatusIndex(idx: Option<Json>): int {
    if idx.Some? && idx.value.Num? then idx.value.n else 0
  }

  /** `issuerClaims.status?.status_list`, when it is truthy. */
  function SdJwtStatus(issuerClaims: Payload): Option<StatusRef> {
    var sl := Field(Get(issuerClaims, "status"), "status_list");
    if !Truthy(sl) then None
    else
      var uri := Field(sl, "uri");
      Some(StatusRef(if uri.Some? && uri.value.Str? then Some(uri.value.s) else None, StatusIndex(Field(sl, "idx"))))
  }

  function MdocStatus(status: Option<D.StatusRef>): Option<StatusRef> {
    match status
    case None => None
    case Some(r) => Some(StatusRef(r.uri, match r.idx case Some(i) => i case None => 0))
  }

  /** Cryptographic and holder-binding verification; `None` when it throws. */
  function Check(cfg: Config, mdoc: bool, token: string, key: Json, nonce: string, now: int): Option<Checked> {
    if mdoc then
      match D.Verify(cfg.codecs, token, key, cfg.verifierUrl, nonce, now / 1000)
      case None => None
      case Some(r) =>
        Some(Checked(Verdict(r.valid, Q.AsObject(r.disclosedClaims), seq(|r.errors|, i requires 0 <= i < |r.errors| => MdocError(r.errors[i]))),
                     MdocStatus(r.status)))
    else
      var r := S.Verify(cfg.suite, token, key, cfg.verifierUrl, nonce, now / 1000);
      Some(Checked(Verdict(r.valid, Obj(r.disclosedClaims), seq(|r.errors|, i requires 0 <= i < |r.errors| => SdJwtError(r.errors[i]))),
                   SdJwtStatus(r.issuerClaims)))
  }

  function WithStatus(v: Verdict, bit: nat): Verdict {
    if bit == L.STATUS_INVALID then Verdict(false, v.disclosed, v.errors + [CredentialRevoked]) else v
  }

  function WithDcql(v: Verdict, paths: seq<Q.Path>): Verdict {
    var missing := Q.Missing(paths, v.disclosed);
    if v.valid && missing != [] then Verdict(false, v.disclosed, v.errors + [DcqlNotSatisfied(missing)]) else v
  }

  function Paths(cfg: Config, mdoc: bool): seq<Q.Path> {
    if mdoc then cfg.mdocPaths else cfg.sdJwtPaths
  }

  // -------------------------------------------------------------------- state

  type Ref = nat

  datatype Session = Session(
    nonce: string, mdoc: bool, createdAt: int, consumed: bool, resultToken: string, result: Option<Verdict>)

  /** How far a /presentation/response handler has got when it is suspended at an await. */
  datatype Stage =
    | ResolvingTrust(token: string, named: Option<string>)
    | Verifying(token: string, issuer: string, key: Json)
    | FetchingStatus(issuer: string, key: Json, verdict: Verdict, uri: string, idx: int)
    | ReadingStatus(issuer: string, key: Json, verdict: Verdict, uri: string, idx: int, listToken: string)

  datatype Flight = Flight(session: Ref, stage: Stage)

  /** `order` lists the keys of `sessions` as the map iterates over them. */
  datatype State = State(heap: map<Ref, Session>, nextRef: Ref, sessions: map<string, Ref>, order: seq<string>, flights: map<nat, Flight>)

  const INIT := State(map[], 0, map[], [], map[])

  ghost predicate Wf(s: State) {
    && (forall r :: r in s.heap ==> r < s.nextRef)
    && (forall k :: k in s.sessions ==> s.sessions[k] in s.heap)
    && (forall q :: q in s.flights ==> s.flights[q].session in s.heap)
    && (forall k :: k in s.order <==> k in s.sessions)
  }

  /** What fetching a trusted issuer's metadata gave: its signing key, or an error status. */
  datatype KeyResult = Key(jwk: Json) | NoKey(status: int)

  datatype Event =
    | Sweep
    | PostRequest(mdoc: bool, newId: string, newNonce: string, newToken: string)
    | GetRequest(id: string)
    | PostResponse(request: nat, id: string, vpToken: string)
    | TrustResolved(request: nat, key: KeyResult)
    | PresentationVerified(request: nat)
    | StatusFetched(request: nat, text: Option<string>)
    | StatusRead(request: nat)
    | GetResult(resultToken: string)

  datatype Response =
    | Swept
    | RequestCreated(id: string, token: string)
    | RequestObject(nonce: string, mdoc: bool)
    | Awaiting
    | VerifyingNonce(nonce: string)
    | Result(verdict: Verdict)
    | Pending
    | Failed(status: int)
    | NoSuchHandler

  datatype Effect =
    | Nothing
    | AddSession(id: string, session: Session)
    | DropSession(id: string)
    | Consume(ref: Ref)
    | Launch(ref: Ref, request: nat, flight: Flight)
    | SetFlight(request: nat, flight: Flight)
    | EndFlight(request: nat)
    | Finish(request: nat, ref: Ref, verdict: Verdict)
    | Purge(ref: Ref)
    | DropExpired(now: int)

  predicate Expired(s: State, now: int, r: Ref)
    requires r in s.heap
  {
    now - s.heap[r].createdAt > SESSION_TTL_MS
  }

  function Without(order: seq<string>, id: string): (r: seq<string>)
    ensures forall k :: k in r <==> k in order && k != id
  {
    if order == [] then []
    else if order[0] == id then Without(order[1..], id)
    else [order[0]] + Without(order[1..], id)
  }

  function LiveOnly(order: seq<string>, live: set<string>): (r: seq<string>)
    ensures forall k :: k in r <==> k in order && k in live
  {
    if order == [] then []
    else if order[0] in live then [order[0]] + LiveOnly(order[1..], live)
    else LiveOnly(order[1..], live)
  }

  function Perform(s: State, e: Effect): State
    requires Wf(s)
  {
    match e
    case Nothing => s
    case AddSession(id, session) =>
      s.(heap := s.heap[s.nextRef := session], nextRef := s.nextRef + 1, sessions := s.sessions[id := s.nextRef],
         order := if id in s.sessions then s.order else s.order + [id])
    case DropSession(id) => s.(sessions := s.sessions - {id}, order := Without(s.order, id))
    case Consume(r) => if r in s.heap then s.(heap := s.heap[r := s.heap[r].(consumed := true)]) else s
    case Launch(r, request, flight) =>
      if r in s.heap then s.(heap := s.heap[r := s.heap[r].(consumed := true)], flights := s.flights[request := flight]) else s
    case SetFlight(request, flight) => s.(flights := s.flights[request := flight])
    case EndFlight(request) => s.(flights := s.flights - {request})
    case Finish(request, r, verdict) =>
      if r in s.heap then s.(heap := s.heap[r := s.heap[r].(result := Some(verdict))], flights := s.flights - {request}) else s
    case Purge(r) => if r in s.heap then s.(heap := s.heap[r := s.heap[r].(result := None)]) else s
    case DropExpired(now) =>
      var live := map k | k in s.sessions && !Expired(s, now, s.sessions[k]) :: s.sessions[k];
      s.(sessions := live, order := LiveOnly(s.order, live.Keys))
  }

  /** What effects do to the heap and the handlers. */
  lemma HeapAndFlightsAfter(s: State, e: Effect)
    requires Wf(s) && ((e.Consume? || e.Launch? || e.Finish? || e.Purge?) ==> e.ref in s.heap)
    ensures Perform(s, e).heap ==
            match e
            case AddSession(_, session) => s.heap[s.nextRef := session]
            case Consume(r) => s.heap[r := s.heap[r].(consumed := true)]
            case Launch(r, _, _) => s.heap[r := s.heap[r].(consumed := true)]
            case Finish(_, r, v) => s.heap[r := s.heap[r].(result := Some(v))]
            case Purge(r) => s.heap[r := s.heap[r].(result := None)]
            case _ => s.heap
    ensures Perform(s, e).flights == if e.Launch? || e.SetFlight? then s.flights[e.request := e.flight]
                                     else if e.EndFlight? || e.Finish? then s.flights - {e.request} else s.flights
  {
  }

  // ---------------------------------------------------------------- handlers

  function DecideRequest(s: State, now: int, mdoc: bool, id: string, nonce: string, token: string): (Effect, Response) {
    if |s.sessions| >= MAX_MAP_SIZE then (Nothing, Failed(429))
    else (AddSession(id, Session(nonce, mdoc, now, false, token, None)), RequestCreated(id, token))
  }

  function DecideGetRequest(s: State, id: string): (Effect, Response)
    requires Wf(s)
  {
    if id !in s.sessions then (Nothing, Failed(404))
    else (Nothing, RequestObject(s.heap[s.sessions[id]].nonce, s.heap[s.sessions[id]].mdoc))
  }

  /** The issuer whose key the handler asks for; `None` when reading the token throws. */
  function NamedIssuer(cfg: Config, mdoc: bool, vpToken: string): Option<Option<string>> {
    if mdoc then Some(if cfg.trusted == [] then None else Some(cfg.trusted[0]))
    else match cfg.suite.peek(C.Parse(vpToken).jws)
      case None => None
      case Some(p) => Some(if "iss" in p && p["iss"].Str? then Some(p["iss"].s) else None)
  }

  function DecideResponse(cfg: Config, s: State, now: int, request: nat, id: string, vpToken: string): (Effect, Response)
    requires Wf(s)
  {
    if request in s.flights then (Nothing, NoSuchHandler)
    else if id !in s.sessions then (Nothing, Failed(404))
    else
      var r := s.sessions[id];
      if Expired(s, now, r) then (DropSession(id), Failed(400))
      else if s.heap[r].consumed || vpToken == "" then (Nothing, Failed(400))
      else match NamedIssuer(cfg, s.heap[r].mdoc, vpToken)
        case None => (Consume(r), Failed(500))
        case Some(issuer) => (Launch(r, request, Flight(r, ResolvingTrust(vpToken, issuer))), Awaiting)
  }

  function DecideTrust(cfg: Config, s: State, request: nat, key: KeyResult): (Effect, Response)
    requires Wf(s)
  {
    if request !in s.flights || !s.flights[request].stage.ResolvingTrust? then (Nothing, NoSuchHandler)
    else
      var f := s.flights[request];
      if f.stage.named.None? || f.stage.named.value !in cfg.trusted then (EndFlight(request), Failed(403))
      else match key
        case NoKey(status) => (EndFlight(request), Failed(status))
        case Key(jwk) => (SetFlight(request, Flight(f.session, Verifying(f.stage.token, f.stage.named.value, jwk))), VerifyingNonce(s.heap[f.session].nonce))
  }

  /** The end of the handler: check the query, keep the verdict, send it. */
  function Conclude(cfg: Config, s: State, request: nat, r: Ref, v: Verdict): (Effect, Response)
    requires r in s.heap
  {
    var verdict := WithDcql(v, Paths(cfg, s.heap[r].mdoc));
    (Finish(request, r, verdict), Result(verdict))
  }

  function DecideVerified(cfg: Config, s: State, now: int, request: nat): (Effect, Response)
    requires Wf(s)
  {
    if request !in s.flights || !s.flights[request].stage.Verifying? then (Nothing, NoSuchHandler)
    else
      var f := s.flights[request];
      match Check(cfg, s.heap[f.session].mdoc, f.stage.token, f.stage.key, s.heap[f.session].nonce, now)
      case None => (EndFlight(request), Failed(400))
      case Some(Checked(v, status)) =>
        if !v.valid || status.None? then Conclude(cfg, s, request, f.session, v)
        else if status.value.uri.None? then (EndFlight(request), Failed(400))
        else (SetFlight(request, Flight(f.session, FetchingStatus(f.stage.issuer, f.stage.key, v, status.value.uri.value, status.value.idx))), Awaiting)
  }

  function DecideFetched(s: State, request: nat, text: Option<string>): (Effect, Response) {
    if request !in s.flights || !s.flights[request].stage.FetchingStatus? then (Nothing, NoSuchHandler)
    else if text.None? then (EndFlight(request), Failed(400))
    else
      var f := s.flights[request];
      (SetFlight(request, Flight(f.session, ReadingStatus(f.stage.issuer, f.stage.key, f.stage.verdict, f.stage.uri, f.stage.idx, text.value))), Awaiting)
  }

  function DecideRead(cfg: Config, s: State, now: int, request: nat): (Effect, Response)
    requires Wf(s)
  {
    if request !in s.flights || !s.flights[request].stage.ReadingStatus? then (Nothing, NoSuchHandler)
    else
      var f := s.flights[request];
      match L.ReadStatus(cfg.suite, cfg.lists, f.stage.listToken, f.stage.idx, f.stage.key, f.stage.issuer, f.stage.uri, now / 1000)
      case StatusFailed(error) => (EndFlight(request), Failed(if error.DecodeFailure? then 500 else 400))
      case Status(bit) => Conclude(cfg, s, request, f.session, WithStatus(f.stage.verdict, bit))
  }

  /** `[...sessions.values()].find(...)`: the first session with this result token. */
  function FindToken(s: State, order: seq<string>, token: string): Option<Ref>
    requires Wf(s) && forall k :: k in order ==> k in s.sessions
  {
    if order == [] then None
    else if s.heap[s.sessions[order[0]]].resultToken == token then Some(s.sessions[order[0]])
    else FindToken(s, order[1..], token)
  }

  function DecideResult(s: State, token: string): (Effect, Response)
    requires Wf(s)
  {
    match FindToken(s, s.order, token)
    case None => (Nothing, Failed(404))
    case Some(r) =>
      if r !in s.heap then (Nothing, Failed(404))
      else (Purge(r), match s.heap[r].result case None => Pending case Some(v) => Result(v))
  }

  function Decide(cfg: Config, s: State, now: int, e: Event): (Effect, Response)
    requires Wf(s)
  {
    match e
    case Sweep => (DropExpired(now), Swept)
    case PostRequest(mdoc, id, nonce, token) => DecideRequest(s, now, mdoc, id, nonce, token)
    case GetRequest(id) => DecideGetRequest(s, id)
    case PostResponse(request, id, vpToken) => DecideResponse(cfg, s, now, request, id, vpToken)
    case TrustResolved(request, key) => DecideTrust(cfg, s, request, key)
    case PresentationVerified(request) => DecideVerified(cfg, s, now, request)
    case StatusFetched(request, text) => DecideFetched(s, request, text)
    case StatusRead(request) => DecideRead(cfg, s, now, request)
    case GetResult(token) => DecideResult(s, token)
  }

  function Step(cfg: Config, s: State, now: int, e: Event): (State, Response)
    requires Wf(s)
  {
    var (effect, response) := Decide(cfg, s, now, e);
    (Perform(s, effect), response)
  }

  // ----------------------------------------------------- effects are grounded

  /** What the handlers' guards establish about the effect they choose. */
  ghost predicate Grounded(s: State, e: Effect)
    requires Wf(s)
  {
    match e
    case AddSession(_, session) => !session.consumed && session.result == None && |s.sessions| < MAX_MAP_SIZE
    case Consume(r) => r in s.heap && !s.heap[r].consumed
    case Launch(r, request, flight) =>
      r in s.heap && !s.heap[r].consumed && request !in s.flights && flight.stage.ResolvingTrust? && flight.session == r
    case SetFlight(request, flight) =>
      request in s.flights && flight.session == s.flights[request].session && !flight.stage.ResolvingTrust?
    case Finish(request, r, verdict) => request in s.flights && s.flights[request].session == r
    case Purge(r) => r in s.heap
    case _ => true
  }

  lemma {:induction false} FoundToken(s: State, order: seq<string>, token: string)
    requires Wf(s) && forall k :: k in order ==> k in s.sessions
    ensures FindToken(s, order, token).Some? ==>
              exists k :: k in s.sessions && s.sessions[k] == FindToken(s, order, token).value && s.heap[s.sessions[k]].resultToken == token
    ensures FindToken(s, order, token) == None <==> forall k :: k in order ==> s.heap[s.sessions[k]].resultToken != token
  {
    if order != [] {
      FoundToken(s, order[1..], token);
      assert order == [order[0]] + order[1..];
    }
  }

  lemma DecisionsAreGrounded(cfg: Config, s: State, now: int, e: Event)
    requires Wf(s)
    ensures Grounded(s, Decide(cfg, s, now, e).0)
  {
    hide Check, WithDcql, WithStatus, L.ReadStatus, NamedIssuer, FindToken;
  }

  lemma GroundedKeepsWf(s: State, e: Effect)
    requires Wf(s) && Grounded(s, e)
    ensures Wf(Perform(s, e))
  {
  }

  lemma StepKeepsWf(cfg: Config, s: State, now: int, e: Event)
    requires Wf(s)
    ensures Wf(Step(cfg, s, now, e).0)
  {
    DecisionsAreGrounded(cfg, s, now, e);
    GroundedKeepsWf(s, Decide(cfg, s, now, e).0);
    hide Decide, Perform, Grounded;
  }

  // --------------------------------------------------------------------- runs

  datatype Timed = Timed(now: int, event: Event)
  datatype Entry = Entry(now: int, event: Event, response: Response)

  function Run(cfg: Config, input: seq<Timed>): (r: (State, seq<Entry>))
    ensures Wf(r.0) && |r.1| == |input|
  {
    if input == [] then (INIT, [])
    else
      var (s, log), last := Run(cfg, input[..|input| - 1]), input[|input| - 1];
      var (s', response) := Step(cfg, s, last.now, last.event);
      StepKeepsWf(cfg, s, last.now, last.event);
      (s', log + [Entry(last.now, last.event, response)])
  }
}
