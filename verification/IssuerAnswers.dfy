/** Exactly when the issuer honours an offer, a pushed request, a code or a token, told from the history of requests
    alone: what was minted when, and which later request used it up. */
module IssuerAnswers {
  import opened Basics
  import opened IssuerModel
  import opened IssuerGrants
  import opened IssuerTheorems
  import opened IssuerRuns
  import opened IssuerService

  /** The event mints the name of this place. */
  predicate Mints(event: Event, p: Place) {
    match event
    case PostOffer(_, code) => p == InOffers(code)
    case PostPar(_, _, _, uri) => p == InPar(uri)
    case GetAuthorize(_, code) => p == InCodes(code)
    case PostToken(_, token, _) => p == InTokens(token)
    case _ => false
  }

  /** The answered request used up what is at this place. An offer: any attempt to redeem it. A PAR: its authorization. A
      code: its redemption, even one that finds the token store full, or an attempt by another client; but not a failed
      PKCE check. A token: any served credential request that brings a proof. */
  predicate UsesUp(x: Entry, p: Place, owner: string) {
    match p
    case InOffers(code) => x.event.PostToken? && x.event.grant == PreAuthorizedCode(code)
    case InPar(uri) => x.event.GetAuthorize? && x.event.requestUri == uri && x.response.Authorized?
    case InCodes(code) =>
      && x.event.PostToken? && x.event.grant.AuthorizationCode? && x.event.grant.code == code
      && (x.response.TokenIssued? || x.response == Failed(429, TooManyRequests) || x.event.grant.clientId != Some(owner))
    case InTokens(token) => x.event.PostCredential? && x.event.accessToken == token && x.event.hasProof && x.response != NoSuchHandler
    case _ => false
  }

  /** The client that a stored code belongs to. */
  function Owner(snap: Snapshot): string {
    match snap case ACode(c, _) => c.clientId case _ => ""
  }

  predicate IsStore(p: Place) { !p.InFlight? && !p.InIssued? }

  // ---------------------------------------------------------------- one step

  predicate Adds(e: Effect, p: Place) {
    match e
    case AddOffer(code, _) => p == InOffers(code)
    case AddPar(uri, _) => p == InPar(uri)
    case ParToCode(_, code, _, _) => p == InCodes(code)
    case GrantToToken(_, _, _, token) => p == InTokens(token)
    case _ => false
  }

  lemma OnlyMintedIsAdded(cfg: Config, s: State, now: int, event: Event, p: Place)
    requires Wf(s)
    ensures Adds(Decide(cfg, s, now, event).0, p) ==> Mints(event, p)
  {
    hide PkceError, Wf, Age;
  }

  lemma NothingAppears(s: State, e: Effect, p: Place)
    requires Wf(s) && Wf(Perform(s, e)) && IsStore(p) && Snap(s, p).None? && !Adds(e, p)
    ensures Snap(Perform(s, e), p).None?
  {
    hide Wf;
  }

  lemma StillNothing(cfg: Config, s: State, now: int, event: Event, p: Place)
    requires Wf(s) && IsStore(p) && Snap(s, p).None? && !Mints(event, p)
    ensures Wf(Step(cfg, s, now, event).0) && Snap(Step(cfg, s, now, event).0, p).None?
  {
    StepKeepsWf(cfg, s, now, event);
    OnlyMintedIsAdded(cfg, s, now, event, p);
    NothingAppears(s, Decide(cfg, s, now, event).0, p);
    hide Decide, Perform, Wf, Snap;
  }

  /** After the step the entry is as it was, and not used up; or it is gone, and used up or past its lifetime. */
  ghost predicate KeptOrGone(s': State, x: Entry, p: Place, snap: Snapshot)
    requires Wf(s')
  {
    || (Snap(s', p) == Some(snap) && !UsesUp(x, p, Owner(snap)))
    || (Snap(s', p).None? && (UsesUp(x, p, Owner(snap)) || !Lasts(snap, x.now)))
  }

  lemma OfferAsked(cfg: Config, s: State, now: int, event: Event, code: string, snap: Snapshot)
    requires Wf(s) && Snap(s, InOffers(code)) == Some(snap) && event.PostToken? && event.grant == PreAuthorizedCode(code)
    ensures var (s', r) := Step(cfg, s, now, event); Wf(s') && KeptOrGone(s', Entry(now, event, r), InOffers(code), snap)
  {
    StepKeepsWf(cfg, s, now, event);
    hide PkceError;
  }

  lemma ParAsked(cfg: Config, s: State, now: int, event: Event, uri: string, snap: Snapshot)
    requires Wf(s) && Snap(s, InPar(uri)) == Some(snap) && event.GetAuthorize? && event.requestUri == uri
    ensures var (s', r) := Step(cfg, s, now, event); Wf(s') && KeptOrGone(s', Entry(now, event, r), InPar(uri), snap)
  {
    StepKeepsWf(cfg, s, now, event);
  }

  lemma CodeAsked(cfg: Config, s: State, now: int, event: Event, code: string, snap: Snapshot)
    requires Wf(s) && Snap(s, InCodes(code)) == Some(snap)
    requires event.PostToken? && event.grant.AuthorizationCode? && event.grant.code == code
    ensures var (s', r) := Step(cfg, s, now, event); Wf(s') && KeptOrGone(s', Entry(now, event, r), InCodes(code), snap)
  {
    StepKeepsWf(cfg, s, now, event);
  }

  lemma TokenAsked(cfg: Config, s: State, now: int, event: Event, token: string, snap: Snapshot)
    requires Wf(s) && Snap(s, InTokens(token)) == Some(snap) && event.PostCredential? && event.accessToken == token
    ensures var (s', r) := Step(cfg, s, now, event); Wf(s') && KeptOrGone(s', Entry(now, event, r), InTokens(token), snap)
  {
    StepKeepsWf(cfg, s, now, event);
  }

  /** A sweep past the lifetime removes the entry. */
  lemma SweptAway(cfg: Config, s: State, now: int, p: Place, snap: Snapshot)
    requires Wf(s) && IsStore(p) && Snap(s, p) == Some(snap) && !Lasts(snap, now)
    ensures Wf(Step(cfg, s, now, Sweep).0) && Snap(Step(cfg, s, now, Sweep).0, p).None?
  {
    StepKeepsWf(cfg, s, now, Sweep);
  }

  lemma NamedButNotMinted(event: Event, p: Place)
    requires IsStore(p) && Names(event, p) && !Mints(event, p)
    ensures match p
            case InOffers(code) => event.PostToken? && event.grant == PreAuthorizedCode(code)
            case InPar(uri) => event.GetAuthorize? && event.requestUri == uri
            case InCodes(code) => event.PostToken? && event.grant.AuthorizationCode? && event.grant.code == code
            case InTokens(token) => event.PostCredential? && event.accessToken == token
            case _ => true
  {
  }

  lemma UnnamedUsesNothing(x: Entry, p: Place, owner: string)
    requires !Names(x.event, p)
    ensures !UsesUp(x, p, owner)
  {
  }

  lemma OneStep(cfg: Config, s: State, l: Ledger, n: nat, now: int, event: Event, p: Place, snap: Snapshot)
    requires Wf(s) && Conserved(s, l, n) && IsStore(p) && Snap(s, p) == Some(snap) && !Mints(event, p)
    ensures var (s', r) := Step(cfg, s, now, event); Wf(s') && KeptOrGone(s', Entry(now, event, r), p, snap)
  {
    hide Wf, Step, Snap, Conserved, Lasts;
    if Names(event, p) {
      NamedButNotMinted(event, p);
      match p {
        case InOffers(code) => OfferAsked(cfg, s, now, event, code, snap);
        case InPar(uri) => ParAsked(cfg, s, now, event, uri, snap);
        case InCodes(code) => CodeAsked(cfg, s, now, event, code, snap);
        case InTokens(token) => TokenAsked(cfg, s, now, event, token, snap);
      }
      hide *;
    } else {
      UnnamedUsesNothing(Entry(now, event, Step(cfg, s, now, event).1), p, Owner(snap));
      if event.Sweep? && !Lasts(snap, now) {
        SweptAway(cfg, s, now, p, snap);
      } else {
        StepLeaves(cfg, s, l, n, now, event, p);
      }
      hide UsesUp;
    }
  }

  // ------------------------------------------------------------- over a run

  /** Between `i` and `j` nobody mints this name again. */
  ghost predicate NotMintedAgain(input: seq<Timed>, i: nat, j: nat, p: Place) {
    i <= j <= |input| && forall k :: i <= k < j ==> !Mints(input[k].event, p)
  }

  /** A request answered between these positions used it up. */
  ghost predicate UsedBetween(cfg: Config, input: seq<Timed>, i: nat, j: nat, p: Place, owner: string) {
    exists k :: i <= k < j <= |input| && UsesUp(EntryAt(cfg, input, k), p, owner)
  }

  function EntryAt(cfg: Config, input: seq<Timed>, k: int): Entry
    requires 0 <= k < |input|
  {
    Entry(input[k].now, input[k].event, ResponseAt(cfg, input, k))
  }

  /** The entry is there and was never used up; or it is gone, and was used up or outlived at some event. */
  ghost predicate Tracked(cfg: Config, input: seq<Timed>, i: nat, j: nat, p: Place, snap: Snapshot)
    requires i <= j <= |input|
  {
    var used := UsedBetween(cfg, input, i, j, p, Owner(snap));
    || (Snap(StateAt(cfg, input, j), p) == Some(snap) && !used)
    || (Snap(StateAt(cfg, input, j), p).None? && (used || exists k :: i <= k < j && !Lasts(snap, input[k].now)))
  }

  lemma UsedOneMore(cfg: Config, input: seq<Timed>, i: nat, j: nat, p: Place, owner: string)
    requires i <= j < |input|
    ensures UsedBetween(cfg, input, i, j + 1, p, owner) <==> UsedBetween(cfg, input, i, j, p, owner) || UsesUp(EntryAt(cfg, input, j), p, owner)
  {
    hide UsesUp, EntryAt;
  }

  lemma {:induction false} StaysTracked(cfg: Config, input: seq<Timed>, i: nat, j: nat, p: Place, snap: Snapshot)
    requires IsStore(p) && NotMintedAgain(input, i, j, p) && Snap(StateAt(cfg, input, i), p) == Some(snap)
    ensures Tracked(cfg, input, i, j, p, snap)
    decreases j
  {
    hide Wf, Step, Snap, Run, StateAt, ResponseAt, Mints, UsesUp, UsedBetween, Lasts, IsStore;
    if i < j {
      StaysTracked(cfg, input, i, j - 1, p, snap);
      StepAt(cfg, input, j - 1);
      StateConserves(cfg, input, j - 1);
      hide Conserved;
      UsedOneMore(cfg, input, i, j - 1, p, Owner(snap));
      var s, x := StateAt(cfg, input, j - 1), input[j - 1];
      assert !Mints(x.event, p);
      if Snap(s, p) == Some(snap) {
        OneStep(cfg, s, Past(cfg, input[..j - 1]), j - 1, x.now, x.event, p, snap);
        assert !Lasts(snap, x.now) ==> exists k :: i <= k < j && !Lasts(snap, input[k].now);
      } else {
        StillNothing(cfg, s, x.now, x.event, p);
      }
    } else {
      NothingUsedYet(cfg, input, i, p, Owner(snap));
    }
  }

  lemma NothingUsedYet(cfg: Config, input: seq<Timed>, i: nat, p: Place, owner: string)
    ensures !UsedBetween(cfg, input, i, i, p, owner)
  {
  }

  /** What lasts is there exactly when it was never used up. */
  lemma ThereExactly(cfg: Config, input: seq<Timed>, i: nat, j: nat, p: Place, snap: Snapshot)
    requires ClockRunsForward(input) && IsStore(p) && i <= j < |input| && NotMintedAgain(input, i, j, p)
    requires Snap(StateAt(cfg, input, i), p) == Some(snap)
    ensures Snap(StateAt(cfg, input, j), p) in {None, Some(snap)}
    ensures Lasts(snap, input[j].now) ==>
              (Snap(StateAt(cfg, input, j), p) == Some(snap) <==> !UsedBetween(cfg, input, i, j, p, Owner(snap)))
    ensures Snap(StateAt(cfg, input, j), p).Some? ==> !UsedBetween(cfg, input, i, j, p, Owner(snap))
  {
    StaysTracked(cfg, input, i, j, p, snap);
    hide Snap, StateAt, UsedBetween, Wf;
    forall k | i <= k < j && Lasts(snap, input[j].now)
      ensures Lasts(snap, input[k].now)
    {
      LastsEarlier(snap, input[k].now, input[j].now);
    }
  }

  // ------------------------------------------------------------------ answers

  /** What minted it, from the answer. */
  lemma Minted(cfg: Config, s: State, now: int, event: Event)
    requires Wf(s)
    ensures var (s', r) := Step(cfg, s, now, event);
            && Wf(s')
            && (r.OfferCreated? ==>
                  event.PostOffer? && r.offerCode == event.offerCode
                  && Snap(s', InOffers(event.offerCode)) == Some(AnOffer(s.nextRef, Pending(r.configId, None, None, None, Some(now)))))
            && (r.ParAccepted? ==>
                  event.PostPar? && r.requestUri == event.newUri
                  && Snap(s', InPar(event.newUri)) == Some(APar(ParRequest(event.clientId, event.codeChallenge, now))))
  {
    StepKeepsWf(cfg, s, now, event);
  }

  lemma CodeMinted(cfg: Config, s: State, now: int, uri: string, code: string, par: ParRequest)
    requires Wf(s) && Step(cfg, s, now, GetAuthorize(uri, code)).1.Authorized? && (uri in s.parRequests ==> s.parRequests[uri] == par)
    ensures var (s', r) := Step(cfg, s, now, GetAuthorize(uri, code));
            Wf(s') && Snap(s', InCodes(code)) ==
                      Some(ACode(AuthCode(par.codeChallenge, par.clientId, s.nextRef, now), Pending(Pid, None, None, None, None)))
  {
    StepKeepsWf(cfg, s, now, GetAuthorize(uri, code));
  }

  lemma TokenMinted(cfg: Config, s: State, now: int, grant: Grant, token: string, nonce: string)
    requires Wf(s) && Step(cfg, s, now, PostToken(grant, token, nonce)).1.TokenIssued?
    ensures var (s', r) := Step(cfg, s, now, PostToken(grant, token, nonce));
            && Wf(s') && r == TokenIssued(token, nonce) && Snap(s', InTokens(token)).Some?
            && var snap := Snap(s', InTokens(token)).value;
               snap.AToken? && snap.record.cNonce == Some(nonce) && snap.record.issuedAt == Some(now)
  {
    StepKeepsWf(cfg, s, now, PostToken(grant, token, nonce));
    if Redeem(cfg, s, now, grant).Redeemed? { RedeemedIsGrantRef(cfg, s, now, grant); }
    hide Redeem;
  }

  // What a step answers, from what is stored.

  lemma OfferAnswer(cfg: Config, s: State, now: int, code: string, token: string, nonce: string)
    requires Wf(s)
    ensures var snap, r := Snap(s, InOffers(code)), Step(cfg, s, now, PostToken(PreAuthorizedCode(code), token, nonce)).1;
            r == if snap.None? || !Lasts(snap.value, now) then Failed(400, InvalidGrant)
                 else if |s.accessTokens| >= 10_000 then Failed(429, TooManyRequests) else TokenIssued(token, nonce)
  {
  }

  lemma ParAnswer(cfg: Config, s: State, now: int, uri: string, code: string)
    requires Wf(s)
    ensures var snap, r := Snap(s, InPar(uri)), Step(cfg, s, now, GetAuthorize(uri, code)).1;
            r == if snap.None? || !Lasts(snap.value, now) then Failed(400, InvalidRequest)
                 else if |s.authCodes| >= 10_000 then Failed(429, TooManyRequests) else Authorized(code)
  {
  }

  lemma CodeAnswer(cfg: Config, s: State, now: int, code: string, clientId: Option<string>, verifier: Option<string>, token: string, nonce: string)
    requires Wf(s)
    ensures var snap, r := Snap(s, InCodes(code)), Step(cfg, s, now, PostToken(AuthorizationCode(code, clientId, verifier), token, nonce)).1;
            r == if snap.None? || !Lasts(snap.value, now) || clientId != Some(Owner(snap.value)) then Failed(400, InvalidGrant)
                 else PkceAnswer(cfg, snap.value.authCode.codeChallenge, verifier,
                                 if |s.accessTokens| >= 10_000 then Failed(429, TooManyRequests) else TokenIssued(token, nonce))
  {
  }

  /** The verifier answers the challenge, or what is wrong with it. */
  function PkceAnswer(cfg: Config, challenge: string, verifier: Option<string>, right: Response): Response {
    if verifier.None? || verifier.value == "" then Failed(400, InvalidRequest)
    else if cfg.s256(verifier.value) == challenge then right
    else if |cfg.s256(verifier.value)| == |challenge| then Failed(400, InvalidGrant)
    else Failed(500, ServerError)
  }

  lemma TokenAnswer(cfg: Config, s: State, now: int, q: nat, token: string, hasProof: bool, hasJwk: bool)
    requires Wf(s) && q !in s.flights
    ensures var snap, r := Snap(s, InTokens(token)), Step(cfg, s, now, PostCredential(q, token, hasProof, hasJwk)).1;
            r == if snap.None? || !Lasts(snap.value, now) then Failed(401, InvalidToken)
                 else if hasProof && hasJwk then Awaiting else Failed(400, InvalidProof)
  {
  }

  // ------------------------------------------------------- the exact promises

  /** A pre-authorized code answered at `o` is honoured at `j` exactly for 30 s and for the first attempt. */
  lemma {:induction false} OfferHonouredExactly(cfg: Config, input: seq<Timed>, o: nat, j: nat, code: string, token: string, nonce: string)
    requires ClockRunsForward(input) && o < j < |input| && NotMintedAgain(input, o + 1, j, InOffers(code))
    requires input[o].event.PostOffer? && input[o].event.offerCode == code && ResponseAt(cfg, input, o).OfferCreated?
    requires input[j].event == PostToken(PreAuthorizedCode(code), token, nonce)
    ensures ResponseAt(cfg, input, j) ==
            if input[j].now - input[o].now > 30_000 || (exists k :: o < k < j && input[k].event.PostToken? && input[k].event.grant == PreAuthorizedCode(code))
            then Failed(400, InvalidGrant)
            else if |StateAt(cfg, input, j).accessTokens| >= 10_000 then Failed(429, TooManyRequests) else TokenIssued(token, nonce)
  {
    hide Step, Wf, Run, Snap, StateAt, ResponseAt;
    StepAt(cfg, input, o);
    Minted(cfg, StateAt(cfg, input, o), input[o].now, input[o].event);
    var p := InOffers(code);
    var snap := Snap(StateAt(cfg, input, o + 1), p).value;
    ThereExactly(cfg, input, o + 1, j, p, snap);
    StepAt(cfg, input, j);
    OfferAnswer(cfg, StateAt(cfg, input, j), input[j].now, code, token, nonce);
    OfferUses(cfg, input, o, j, code);
  }

  lemma OfferUses(cfg: Config, input: seq<Timed>, o: nat, j: nat, code: string)
    requires o < j < |input|
    ensures UsedBetween(cfg, input, o + 1, j, InOffers(code), "") <==>
            exists k :: o < k < j && input[k].event.PostToken? && input[k].event.grant == PreAuthorizedCode(code)
  {
    hide ResponseAt;
    if k :| o < k < j && input[k].event.PostToken? && input[k].event.grant == PreAuthorizedCode(code) {
      assert UsesUp(EntryAt(cfg, input, k), InOffers(code), "");
    }
  }

  /** A request URI answered at `g` is authorized at `j` exactly for 90 s and once. */
  lemma {:induction false} ParHonouredExactly(cfg: Config, input: seq<Timed>, g: nat, j: nat, uri: string, code: string)
    requires ClockRunsForward(input) && g < j < |input| && NotMintedAgain(input, g + 1, j, InPar(uri))
    requires input[g].event.PostPar? && input[g].event.newUri == uri && ResponseAt(cfg, input, g).ParAccepted?
    requires input[j].event == GetAuthorize(uri, code)
    ensures ResponseAt(cfg, input, j) ==
            if input[j].now - input[g].now > 90_000 || UsedBetween(cfg, input, g + 1, j, InPar(uri), "") then Failed(400, InvalidRequest)
            else if |StateAt(cfg, input, j).authCodes| >= 10_000 then Failed(429, TooManyRequests) else Authorized(code)
  {
    hide Step, Wf, Run, Snap, StateAt, ResponseAt, UsedBetween;
    StepAt(cfg, input, g);
    Minted(cfg, StateAt(cfg, input, g), input[g].now, input[g].event);
    var snap := Snap(StateAt(cfg, input, g + 1), InPar(uri)).value;
    ThereExactly(cfg, input, g + 1, j, InPar(uri), snap);
    StepAt(cfg, input, j);
    ParAnswer(cfg, StateAt(cfg, input, j), input[j].now, uri, code);
  }

  /** The PAR pushed at `g` was turned at `a` into this code, and neither name was minted again before `j`. */
  ghost predicate CodeFrom(cfg: Config, input: seq<Timed>, g: nat, a: nat, j: nat, uri: string, code: string) {
    && g < a < j < |input| && NotMintedAgain(input, g + 1, a, InPar(uri)) && NotMintedAgain(input, a + 1, j, InCodes(code))
    && input[g].event.PostPar? && input[g].event.newUri == uri && ResponseAt(cfg, input, g).ParAccepted?
    && input[a].event == GetAuthorize(uri, code) && ResponseAt(cfg, input, a).Authorized?
  }

  lemma CodeIsStored(cfg: Config, input: seq<Timed>, g: nat, a: nat, j: nat, uri: string, code: string)
    requires ClockRunsForward(input) && CodeFrom(cfg, input, g, a, j, uri, code)
    ensures var snap := Snap(StateAt(cfg, input, a + 1), InCodes(code));
            snap.Some? && snap.value.ACode? && snap.value.authCode.clientId == input[g].event.clientId
            && snap.value.authCode.codeChallenge == input[g].event.codeChallenge && snap.value.authCode.createdAt == input[a].now
  {
    hide Step, Wf, Run, StateAt, ResponseAt, UsedBetween;
    StepAt(cfg, input, g);
    Minted(cfg, StateAt(cfg, input, g), input[g].now, input[g].event);
    var par := ParRequest(input[g].event.clientId, input[g].event.codeChallenge, input[g].now);
    ThereExactly(cfg, input, g + 1, a, InPar(uri), APar(par));
    StepAt(cfg, input, a);
    CodeMinted(cfg, StateAt(cfg, input, a), input[a].now, uri, code, par);
  }

  /** A code made at `a` from the PAR of `g` is honoured at `j` exactly: for 60 s; until it was redeemed or another client
      tried it; for the client of the PAR; and with the verifier that answers its challenge. */
  lemma {:induction false} CodeHonouredExactly(
    cfg: Config, input: seq<Timed>, g: nat, a: nat, j: nat, uri: string, code: string,
    clientId: Option<string>, verifier: Option<string>, token: string, nonce: string)
    requires ClockRunsForward(input) && CodeFrom(cfg, input, g, a, j, uri, code)
    requires input[j].event == PostToken(AuthorizationCode(code, clientId, verifier), token, nonce)
    ensures var owner, challenge := input[g].event.clientId, input[g].event.codeChallenge;
            ResponseAt(cfg, input, j) ==
            if input[j].now - input[a].now > 60_000 || UsedBetween(cfg, input, a + 1, j, InCodes(code), owner) || clientId != Some(owner)
            then Failed(400, InvalidGrant)
            else PkceAnswer(cfg, challenge, verifier,
                            if |StateAt(cfg, input, j).accessTokens| >= 10_000 then Failed(429, TooManyRequests) else TokenIssued(token, nonce))
  {
    hide Step, Wf, Run, Snap, StateAt, ResponseAt, UsedBetween, PkceAnswer;
    CodeIsStored(cfg, input, g, a, j, uri, code);
    var snap := Snap(StateAt(cfg, input, a + 1), InCodes(code)).value;
    ThereExactly(cfg, input, a + 1, j, InCodes(code), snap);
    StepAt(cfg, input, j);
    CodeAnswer(cfg, StateAt(cfg, input, j), input[j].now, code, clientId, verifier, token, nonce);
  }

  /** Once a code was presented by another client than the PAR's, or after its 60 s, no later request redeems it, unless
      it is minted again. */
  lemma {:induction false} MisusedCodeIsDead(
    cfg: Config, input: seq<Timed>, g: nat, a: nat, i: nat, j: nat, uri: string, code: string)
    requires ClockRunsForward(input) && CodeFrom(cfg, input, g, a, j, uri, code) && a < i < j
    requires input[i].event.PostToken? && input[i].event.grant.AuthorizationCode? && input[i].event.grant.code == code
    requires input[i].event.grant.clientId != Some(input[g].event.clientId) || input[i].now - input[a].now > 60_000
    requires input[j].event.PostToken? && input[j].event.grant.AuthorizationCode? && input[j].event.grant.code == code
    ensures ResponseAt(cfg, input, j) == Failed(400, InvalidGrant)
  {
    var AuthorizationCode(_, clientId, verifier) := input[j].event.grant;
    assert input[i].now <= input[j].now;
    if input[i].event.grant.clientId != Some(input[g].event.clientId) {
      assert UsesUp(EntryAt(cfg, input, i), InCodes(code), input[g].event.clientId);
    }
    hide ResponseAt, StateAt, CodeFrom, Wf;
    CodeHonouredExactly(cfg, input, g, a, j, uri, code, clientId, verifier, input[j].event.newToken, input[j].event.newNonce);
  }

  /** Failed PKCE checks leave the code alive: however many requests of the right client brought a wrong verifier, the
      first one in time with the right verifier is answered with a token, while there is room. */
  lemma {:induction false} FailedPkceLeavesTheCode(
    cfg: Config, input: seq<Timed>, g: nat, a: nat, j: nat, uri: string, code: string, verifier: string, token: string, nonce: string)
    requires ClockRunsForward(input) && CodeFrom(cfg, input, g, a, j, uri, code) && input[j].now - input[a].now <= 60_000
    requires forall k :: a < k < j && input[k].event.PostToken? && input[k].event.grant.AuthorizationCode? && input[k].event.grant.code == code ==>
               var grant := input[k].event.grant;
               && grant.clientId == Some(input[g].event.clientId)
               && (grant.codeVerifier.None? || grant.codeVerifier.value == "" || cfg.s256(grant.codeVerifier.value) != input[g].event.codeChallenge)
    requires input[j].event == PostToken(AuthorizationCode(code, Some(input[g].event.clientId), Some(verifier)), token, nonce)
    requires verifier != "" && cfg.s256(verifier) == input[g].event.codeChallenge && |StateAt(cfg, input, j).accessTokens| < 10_000
    ensures ResponseAt(cfg, input, j) == TokenIssued(token, nonce)
  {
    CodeHonouredExactly(cfg, input, g, a, j, uri, code, Some(input[g].event.clientId), Some(verifier), token, nonce);
    forall k | a < k < j
      ensures !UsesUp(EntryAt(cfg, input, k), InCodes(code), input[g].event.clientId)
    {
      if input[k].event.PostToken? && input[k].event.grant.AuthorizationCode? && input[k].event.grant.code == code {
        var AuthorizationCode(_, c, v) := input[k].event.grant;
        CodeFromEarlier(cfg, input, g, a, k, j, uri, code);
        CodeHonouredExactly(cfg, input, g, a, k, uri, code, c, v, input[k].event.newToken, input[k].event.newNonce);
      }
      hide *;
    }
    hide StateAt, ResponseAt, CodeFrom, Wf, UsesUp;
  }

  lemma CodeFromEarlier(cfg: Config, input: seq<Timed>, g: nat, a: nat, k: nat, j: nat, uri: string, code: string)
    requires CodeFrom(cfg, input, g, a, j, uri, code) && a < k < j
    ensures CodeFrom(cfg, input, g, a, k, uri, code)
  {
    hide ResponseAt;
  }

  /** A token issued at `m` is honoured at `j` exactly for 300 s and until a request brought a proof: a request without one
      leaves it alive, one with a proof uses it up whatever becomes of it. */
  lemma {:induction false} TokenHonouredExactly(cfg: Config, input: seq<Timed>, m: nat, j: nat, q: nat, token: string, hasProof: bool, hasJwk: bool)
    requires ClockRunsForward(input) && m < j < |input| && NotMintedAgain(input, m + 1, j, InTokens(token))
    requires input[m].event.PostToken? && input[m].event.newToken == token && ResponseAt(cfg, input, m).TokenIssued?
    requires input[j].event == PostCredential(q, token, hasProof, hasJwk) && q !in StateAt(cfg, input, j).flights
    ensures ResponseAt(cfg, input, j) ==
            if input[j].now - input[m].now > 300_000 || UsedBetween(cfg, input, m + 1, j, InTokens(token), "") then Failed(401, InvalidToken)
            else if hasProof && hasJwk then Awaiting else Failed(400, InvalidProof)
  {
    hide Step, Wf, Run, Snap, StateAt, ResponseAt, UsedBetween;
    StepAt(cfg, input, m);
    TokenMinted(cfg, StateAt(cfg, input, m), input[m].now, input[m].event.grant, token, input[m].event.newNonce);
    var snap := Snap(StateAt(cfg, input, m + 1), InTokens(token)).value;
    ThereExactly(cfg, input, m + 1, j, InTokens(token), snap);
    StepAt(cfg, input, j);
    TokenAnswer(cfg, StateAt(cfg, input, j), input[j].now, q, token, hasProof, hasJwk);
  }

  /** A name that was never minted is refused everywhere. */
  lemma {:induction false} UnmintedIsRefused(cfg: Config, input: seq<Timed>, j: nat, p: Place)
    requires IsStore(p) && j < |input| && NotMintedAgain(input, 0, j, p)
    ensures Snap(StateAt(cfg, input, j), p).None?
    ensures match input[j].event
            case PostToken(grant, _, _) => p == GrantPlace(grant) ==> ResponseAt(cfg, input, j) == Failed(400, InvalidGrant)
            case GetAuthorize(uri, _) => p == InPar(uri) ==> ResponseAt(cfg, input, j) == Failed(400, InvalidRequest)
            case PostCredential(q, token, _, _) =>
              p == InTokens(token) && q !in StateAt(cfg, input, j).flights ==> ResponseAt(cfg, input, j) == Failed(401, InvalidToken)
            case _ => true
  {
    NothingUntilMinted(cfg, input, j, p);
    hide Step, Wf, Run, Snap, StateAt, ResponseAt, PkceAnswer;
    StepAt(cfg, input, j);
    var s, now := StateAt(cfg, input, j), input[j].now;
    match input[j].event {
      case PostToken(PreAuthorizedCode(c), t, n) => OfferAnswer(cfg, s, now, c, t, n);
      case PostToken(AuthorizationCode(c, client, verifier), t, n) => CodeAnswer(cfg, s, now, c, client, verifier, t, n);
      case GetAuthorize(uri, c) => ParAnswer(cfg, s, now, uri, c);
      case PostCredential(q, t, hasProof, hasJwk) => if q !in s.flights { TokenAnswer(cfg, s, now, q, t, hasProof, hasJwk); }
      case _ =>
    }
  }

  lemma {:induction false} NothingUntilMinted(cfg: Config, input: seq<Timed>, j: nat, p: Place)
    requires IsStore(p) && j <= |input| && NotMintedAgain(input, 0, j, p)
    ensures Snap(StateAt(cfg, input, j), p).None?
  {
    if j > 0 {
      hide Step, Wf, Run, Snap, StateAt, Mints, IsStore;
      NothingUntilMinted(cfg, input, j - 1, p);
      StepAt(cfg, input, j - 1);
      StillNothing(cfg, StateAt(cfg, input, j - 1), input[j - 1].now, input[j - 1].event, p);
    } else {
      assert input[..0] == [];
    }
  }

  /** Offers, pushed requests and revocations are answered at once. */
  lemma AnsweredAtOnce(cfg: Config, input: seq<Timed>, j: nat)
    requires j < |input|
    ensures var s, r := StateAt(cfg, input, j), ResponseAt(cfg, input, j);
            match input[j].event
            case PostOffer(None, code) => r == if |s.offers| >= 10_000 then Failed(429, TooManyRequests) else OfferCreated(code, Pid)
            case PostOffer(Some(id), code) =>
              r == if id != Pid && id != Mdl then Failed(400, InvalidRequest)
                   else if |s.offers| >= 10_000 then Failed(429, TooManyRequests) else OfferCreated(code, id)
            case PostPar(clientId, challenge, isS256, uri) =>
              r == if clientId != "" && challenge != "" && isS256
                   then (if |s.parRequests| >= 10_000 then Failed(429, TooManyRequests) else ParAccepted(uri))
                   else Failed(400, InvalidRequest)
            case PostRevoke(idx) => r == if idx.Some? && 0 <= idx.value < 1024 then Revoked(idx.value) else Failed(400, InvalidRequest)
            case _ => true
  {
    StepAt(cfg, input, j);
    hide StateAt, ResponseAt, Wf;
  }

  // ---------------------------------------------------- proofs, indices, records

  /** What the stretches of a credential handler answer, from the stage it is suspended at. */
  lemma HandlerAnswer(cfg: Config, s: State, now: int, q: nat)
    requires Wf(s) && q in s.flights
    ensures var f := s.flights[q];
            var record := s.heap[f.pending];
            && (f.ImportingKey? ==> Step(cfg, s, now, KeyImported(q, false)).1 == Failed(400, InvalidProof))
            && (f.Signing? ==> Step(cfg, s, now, CredentialSigned(q, false)).1 == Failed(500, ServerError))
            && (f.CheckingProof? ==>
                  forall proof :: Step(cfg, s, now, ProofChecked(q, proof)).1 ==
                    if proof.Some? && proof.value.nonce == record.cNonce && proof.value.aud == Some(cfg.issuerUrl) && Age(now, record.issuedAt) <= 300_000
                    then ProofAccepted(s.nextStatusIdx, record.configId) else Failed(400, InvalidProof))
  {
  }

  /** Positions of one credential request: token answered, request, key imported, proof checked. */
  ghost predicate ProofOf(cfg: Config, input: seq<Timed>, m: nat, k: nat, l: nat, j: nat, q: nat, token: string, nonce: string, proof: Option<Proof>) {
    && m < k < l < j < |input| && NotMintedAgain(input, m + 1, k, InTokens(token))
    && input[m].event.PostToken? && ResponseAt(cfg, input, m) == TokenIssued(token, nonce) && input[m].event.newToken == token && input[m].event.newNonce == nonce
    && input[k].event == PostCredential(q, token, true, true) && ResponseAt(cfg, input, k) == Awaiting
    && input[l].event == KeyImported(q, true) && input[j].event == ProofChecked(q, proof)
    && Undisturbed(input, k + 1, l, InFlight(q)) && Undisturbed(input, l + 1, j, InFlight(q))
  }

  lemma LaunchedWith(cfg: Config, s: State, now: int, q: nat, token: string)
    requires Wf(s) && Step(cfg, s, now, PostCredential(q, token, true, true)).1 == Awaiting
    ensures Snap(s, InTokens(token)).Some? && q !in s.flights && Lasts(Snap(s, InTokens(token)).value, now)
  {
  }

  lemma ProofIsPending(cfg: Config, input: seq<Timed>, m: nat, k: nat, l: nat, j: nat, q: nat, token: string, nonce: string, proof: Option<Proof>)
    requires ClockRunsForward(input) && ProofOf(cfg, input, m, k, l, j, q, token, nonce, proof)
    ensures var snap := Snap(StateAt(cfg, input, j), InFlight(q));
            snap.Some? && snap.value.AFlight? && snap.value.flight.CheckingProof?
            && snap.value.record.cNonce == Some(nonce) && snap.value.record.issuedAt == Some(input[m].now)
  {
    hide Step, Wf, Run, Snap, StateAt, ResponseAt, UsedBetween, Undisturbed, NotMintedAgain, ClockRunsForward;
    StepAt(cfg, input, m);
    TokenMinted(cfg, StateAt(cfg, input, m), input[m].now, input[m].event.grant, token, nonce);
    var snap := Snap(StateAt(cfg, input, m + 1), InTokens(token)).value;
    ThereExactly(cfg, input, m + 1, k, InTokens(token), snap);
    StepAt(cfg, input, k);
    LaunchedWith(cfg, StateAt(cfg, input, k), input[k].now, q, token);
    CredentialRequestServed(cfg, StateAt(cfg, input, k), input[k].now, q, token, snap.ref, snap.record);
    FlightStays(cfg, input, k + 1, l, q);
    StepAt(cfg, input, l);
    KeyServed(cfg, StateAt(cfg, input, l), input[l].now, q, snap.ref, snap.record);
    FlightStays(cfg, input, l + 1, j, q);
  }

  lemma FlightOfSnap(s: State, q: nat)
    requires Wf(s) && Snap(s, InFlight(q)).Some?
    ensures q in s.flights && Snap(s, InFlight(q)) == Some(AFlight(s.flights[q], s.heap[s.flights[q].pending]))
  {
  }

  /** A proof is accepted exactly when it carries the c_nonce of the token that was used and this issuer as audience, at
      most 300 s after that token was issued. */
  lemma {:induction false} ProofAnsweredExactly(
    cfg: Config, input: seq<Timed>, m: nat, k: nat, l: nat, j: nat, q: nat, token: string, nonce: string, proof: Option<Proof>)
    requires ClockRunsForward(input) && ProofOf(cfg, input, m, k, l, j, q, token, nonce, proof)
    ensures if proof == Some(Proof(Some(nonce), Some(cfg.issuerUrl))) && input[j].now - input[m].now <= 300_000
            then ResponseAt(cfg, input, j).ProofAccepted? else ResponseAt(cfg, input, j) == Failed(400, InvalidProof)
  {
    ProofIsPending(cfg, input, m, k, l, j, q, token, nonce, proof);
    hide Step, Wf, Run, Snap, StateAt, ResponseAt, Undisturbed, NotMintedAgain, ClockRunsForward;
    FlightOfSnap(StateAt(cfg, input, j), q);
    HandlerAnswer(cfg, StateAt(cfg, input, j), input[j].now, q);
    StepAt(cfg, input, j);
  }

  /** How many proofs were accepted. */
  function AcceptedCount(log: seq<Entry>): nat {
    if log == [] then 0 else AcceptedCount(log[..|log| - 1]) + (if log[|log| - 1].response.ProofAccepted? then 1 else 0)
  }

  /** The admin log, told from the answers: a PID when its proof is accepted, an mDL when it is sent. */
  function RecordsOf(log: seq<Entry>): seq<IssuedRecord> {
    if log == [] then []
    else
      var x := log[|log| - 1];
      RecordsOf(log[..|log| - 1]) +
      (match x.response
       case ProofAccepted(idx, configId) => if configId == Mdl then [] else [IssuedRecord(idx, FamilyName, x.now)]
       case Credential(idx, configId) => if configId == Mdl then [IssuedRecord(idx, MdlSubject, x.now)] else []
       case _ => [])
  }

  lemma StepRecords(cfg: Config, s: State, now: int, event: Event)
    requires Wf(s)
    ensures var (s', r) := Step(cfg, s, now, event);
            && s'.nextStatusIdx == s.nextStatusIdx + (if r.ProofAccepted? then 1 else 0)
            && (r.ProofAccepted? ==> r.idx == s.nextStatusIdx)
            && s'.issuedRecords == s.issuedRecords + RecordsOf([Entry(now, event, r)])
  {
    FlightsAfter(s, Decide(cfg, s, now, event).0);
    assert RecordsOf([]) == [];
    StepEntry(cfg, s, now, event);
    hide Perform;
  }

  lemma StepEntry(cfg: Config, s: State, now: int, event: Event)
    requires Wf(s)
    ensures var (e, r) := Decide(cfg, s, now, event);
            && (e.Accept? <==> r.ProofAccepted?) && (e.Accept? ==> r.idx == s.nextStatusIdx)
            && (e.Send? <==> r.Credential?)
            && (e.Accept? ==> e.entry == if r.configId == Mdl then [] else [IssuedRecord(r.idx, FamilyName, now)])
            && (e.Send? ==> e.entry == if r.configId == Mdl then [IssuedRecord(r.idx, MdlSubject, now)] else [])
  {
  }

  /** Status indices are 0, 1, 2, ... in the order of acceptance, and the admin log is exactly what was answered. */
  lemma {:induction false} IndicesCountUp(cfg: Config, input: seq<Timed>)
    ensures var (s, log) := Run(cfg, input);
            && s.nextStatusIdx == AcceptedCount(log) && s.issuedRecords == RecordsOf(log)
            && forall j :: 0 <= j < |log| && log[j].response.ProofAccepted? ==> log[j].response.idx == AcceptedCount(log[..j])
  {
    if input != [] {
      var before, last := Before(input), input[|input| - 1];
      IndicesCountUp(cfg, before);
      var (s, log) := Run(cfg, before);
      var log' := Run(cfg, input).1;
      StepRecords(cfg, s, last.now, last.event);
      hide Step, Wf;
      assert log' == log + [log'[|log|]] && log'[..|log|] == log;
      OneRecord(log, log'[|log|]);
      forall j | 0 <= j < |log'| && log'[j].response.ProofAccepted?
        ensures log'[j].response.idx == AcceptedCount(log'[..j])
      {
        if j < |log| { assert log'[..j] == log[..j] && log'[j] == log[j]; }
      }
    }
  }

  lemma OneRecord(log: seq<Entry>, x: Entry)
    ensures RecordsOf(log + [x]) == RecordsOf(log) + RecordsOf([x])
    ensures AcceptedCount(log + [x]) == AcceptedCount(log) + (if x.response.ProofAccepted? then 1 else 0)
  {
    assert (log + [x])[..|log|] == log && [x][..0] == [];
    assert RecordsOf([]) == [];
  }
}
