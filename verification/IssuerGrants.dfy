/** Where each offer and each pushed authorization request is at any moment of any run, and where a credential
    came from. A ledger, computed from the run, names the request that every entry descends from. */
module IssuerGrants {
  import opened Basics
  import opened IssuerModel

  // ------------------------------------------------------------------ ledger

  /** The run positions at which a pending record's grant was requested, and authorized. */
  datatype Origin = FromOffer(offer: nat) | FromPar(par: nat, authorize: nat)

  datatype Ledger = Ledger(
    parOrigin: map<string, nat>,   // request_uri -> position of its /par request
    origin: map<Ref, Origin>,      // pending record -> the request it descends from
    redeemed: map<Ref, nat>,       // pending record -> position of its /token request
    issued: map<nat, Ref>)         // status index of a credential sent -> its pending record

  const EMPTY := Ledger(map[], map[], map[], map[])

  function GrantOf(o: Origin): nat {
    match o case FromOffer(g) => g case FromPar(g, _) => g
  }

  /** The ledger after the effect of the step at position `n` on state `s`. */
  function Track(l: Ledger, s: State, n: nat, e: Effect): Ledger {
    match e
    case AddOffer(_, _) => l.(origin := l.origin[s.nextRef := FromOffer(n)])
    case AddPar(uri, _) => l.(parOrigin := l.parOrigin[uri := n])
    case ParToCode(uri, _, _, _) =>
      if uri in l.parOrigin then l.(origin := l.origin[s.nextRef := FromPar(l.parOrigin[uri], n)]) else l
    case GrantToToken(_, r, _, _) => l.(redeemed := l.redeemed[r := n])
    case Send(request, _) =>
      if request in s.flights && s.flights[request].Signing?
      then l.(issued := l.issued[s.flights[request].idx := s.flights[request].pending]) else l
    case _ => l
  }

  function Past(cfg: Config, input: seq<Timed>): Ledger {
    if input == [] then EMPTY
    else
      var before, last := input[..|input| - 1], input[|input| - 1];
      var s := Run(cfg, before).0;
      Track(Past(cfg, before), s, |before|, Decide(cfg, s, last.now, last.event).0)
  }

  // ------------------------------------------------------------------ places

  datatype Place =
    | InOffers(code: string) | InPar(uri: string) | InCodes(code: string) | InTokens(token: string)
    | InFlight(request: nat) | InIssued(idx: nat)

  datatype Item = Requested(par: ParRequest) | Coded(authCode: AuthCode) | Owned(ref: Ref)

  /** What the issuer holds at a place, or has sent out under a status index. */
  function Held(s: State, l: Ledger, p: Place): Option<Item> {
    match p
    case InOffers(code) => if code in s.offers then Some(Owned(s.offers[code])) else None
    case InPar(uri) => if uri in s.parRequests then Some(Requested(s.parRequests[uri])) else None
    case InCodes(code) => if code in s.authCodes then Some(Coded(s.authCodes[code])) else None
    case InTokens(token) => if token in s.accessTokens then Some(Owned(s.accessTokens[token])) else None
    case InFlight(request) => if request in s.flights then Some(Owned(s.flights[request].pending)) else None
    case InIssued(idx) => if idx in l.issued then Some(Owned(l.issued[idx])) else None
  }

  /** The pending record reachable from a place. */
  function RefAt(s: State, l: Ledger, p: Place): Option<Ref> {
    match Held(s, l, p)
    case Some(Owned(r)) => Some(r)
    case Some(Coded(c)) => Some(c.pending)
    case _ => None
  }

  /** The run position of the offer or PAR that the entry at a place descends from. */
  function GrantAt(s: State, l: Ledger, p: Place): Option<nat> {
    match Held(s, l, p)
    case None => None
    case Some(Requested(_)) => if p.InPar? && p.uri in l.parOrigin then Some(l.parOrigin[p.uri]) else None
    case Some(_) =>
      var r := RefAt(s, l, p);
      if r.Some? && r.value in l.origin then Some(GrantOf(l.origin[r.value])) else None
  }

  /** Every entry descends from a request made before position `n`, and no request has two descendants. */
  ghost predicate Conserved(s: State, l: Ledger, n: nat) {
    && (forall p :: Held(s, l, p).Some? ==> GrantAt(s, l, p).Some? && GrantAt(s, l, p).value < n)
    && (forall p, q :: GrantAt(s, l, p).Some? && GrantAt(s, l, p) == GrantAt(s, l, q) ==> p == q)
    && (forall r :: r in l.origin ==> r < s.nextRef)
  }

  /** The shape of every step: whatever stays, stays as it was; at most one entry arrives at `dst`, either
      requested at this very position or taken from `src`. */
  ghost predicate Transfers(s: State, l: Ledger, s': State, l': Ledger, n: nat, src: Option<Place>, dst: Option<Place>) {
    && Keeps(s, l, s', l', dst)
    && LedgerGrows(s, l, s', l', n, src, dst)
  }

  ghost predicate Keeps(s: State, l: Ledger, s': State, l': Ledger, dst: Option<Place>) {
    forall p :: dst != Some(p) ==> Held(s', l', p) == None || Held(s', l', p) == Held(s, l, p)
  }

  /** The ledger keeps what it knew, and the arriving entry descends from its source. */
  ghost predicate LedgerGrows(s: State, l: Ledger, s': State, l': Ledger, n: nat, src: Option<Place>, dst: Option<Place>) {
    && (src.Some? ==> src != dst && Held(s', l', src.value) == None)
    && LedgerKeeps(l, s', l', dst)
    && Arrives(s, l, s', l', n, src, dst)
  }

  ghost predicate LedgerKeeps(l: Ledger, s': State, l': Ledger, dst: Option<Place>) {
    && (forall r :: r in l.origin ==> r in l'.origin && l'.origin[r] == l.origin[r])
    && (forall r :: r in l'.origin ==> r < s'.nextRef)
    && (forall u :: dst != Some(InPar(u)) && u in l.parOrigin ==> u in l'.parOrigin && l'.parOrigin[u] == l.parOrigin[u])
  }

  ghost predicate Arrives(s: State, l: Ledger, s': State, l': Ledger, n: nat, src: Option<Place>, dst: Option<Place>) {
    dst.Some? ==>
      || GrantAt(s', l', dst.value) == Some(n)
      || (src.Some? && Held(s, l, src.value).Some? && GrantAt(s', l', dst.value) == GrantAt(s, l, src.value))
  }

  lemma StaysTheSame(s: State, l: Ledger, s': State, l': Ledger, n: nat, src: Option<Place>, dst: Option<Place>, p: Place)
    requires Transfers(s, l, s', l', n, src, dst) && Conserved(s, l, n)
    requires dst != Some(p) && Held(s', l', p).Some?
    ensures Held(s, l, p) == Held(s', l', p) && GrantAt(s', l', p) == GrantAt(s, l, p)
  {
    assert Held(s', l', p) == Held(s, l, p);
    assert GrantAt(s, l, p).Some?;
  }

  lemma TransfersConserve(s: State, l: Ledger, s': State, l': Ledger, n: nat, src: Option<Place>, dst: Option<Place>)
    requires Transfers(s, l, s', l', n, src, dst) && Conserved(s, l, n)
    ensures Conserved(s', l', n + 1)
  {
    forall p | Held(s', l', p).Some?
      ensures GrantAt(s', l', p).Some? && GrantAt(s', l', p).value < n + 1
    {
      if dst != Some(p) { StaysTheSame(s, l, s', l', n, src, dst, p); }
    }
    forall p, q | GrantAt(s', l', p).Some? && GrantAt(s', l', p) == GrantAt(s', l', q)
      ensures p == q
    {
      if dst != Some(p) { StaysTheSame(s, l, s', l', n, src, dst, p); }
      if dst != Some(q) { StaysTheSame(s, l, s', l', n, src, dst, q); }
    }
  }

  function GrantPlace(grant: Grant): Place {
    match grant
    case AuthorizationCode(code, _, _) => InCodes(code)
    case PreAuthorizedCode(code) => InOffers(code)
  }

  /** The place an entry leaves, and the place it arrives at. */
  function Source(s: State, e: Effect): Option<Place> {
    match e
    case ParToCode(uri, _, _, _) => Some(InPar(uri))
    case GrantToToken(grant, _, _, _) => Some(GrantPlace(grant))
    case BurnGrant(grant, _, _) => Some(GrantPlace(grant))
    case TokenToFlight(token, _, _) => Some(InTokens(token))
    case Send(request, _) => Some(InFlight(request))
    case _ => None
  }

  function Target(s: State, e: Effect): Option<Place> {
    match e
    case AddOffer(code, _) => Some(InOffers(code))
    case AddPar(uri, _) => Some(InPar(uri))
    case ParToCode(_, code, _, _) => Some(InCodes(code))
    case GrantToToken(_, _, _, token) => Some(InTokens(token))
    case TokenToFlight(_, request, _) => Some(InFlight(request))
    case Send(request, _) => if request in s.flights && s.flights[request].Signing? then Some(InIssued(s.flights[request].idx)) else None
    case _ => None
  }

  /** Every entry of `m'`, except one, was there before. */
  ghost predicate Within<K(!new), V(!new)>(m': map<K, V>, m: map<K, V>, except: Option<K>) {
    forall k :: k in m' && Some(k) != except ==> k in m && m'[k] == m[k]
  }

  /** `Keeps`, store by store. */
  ghost predicate StoresWithin(s: State, l: Ledger, s': State, l': Ledger, dst: Option<Place>) {
    && Within(s'.offers, s.offers, if dst.Some? && dst.value.InOffers? then Some(dst.value.code) else None)
    && Within(s'.parRequests, s.parRequests, if dst.Some? && dst.value.InPar? then Some(dst.value.uri) else None)
    && Within(s'.authCodes, s.authCodes, if dst.Some? && dst.value.InCodes? then Some(dst.value.code) else None)
    && Within(s'.accessTokens, s.accessTokens, if dst.Some? && dst.value.InTokens? then Some(dst.value.token) else None)
    && (forall k :: k in s'.flights && dst != Some(InFlight(k)) ==> k in s.flights && s'.flights[k].pending == s.flights[k].pending)
    && Within(l'.issued, l.issued, if dst.Some? && dst.value.InIssued? then Some(dst.value.idx) else None)
  }

  lemma StoresWithinKeeps(s: State, l: Ledger, s': State, l': Ledger, dst: Option<Place>)
    requires StoresWithin(s, l, s', l', dst)
    ensures Keeps(s, l, s', l', dst)
  {
  }

  lemma CreatingStores(s: State, l: Ledger, e: Effect, n: nat)
    requires Wf(s) && Grounded(s, e) && Creates(e)
    ensures StoresWithin(s, l, Perform(s, e), Track(l, s, n, e), Target(s, e))
  {
    hide Grounded, Wf;
  }

  lemma DroppingStores(s: State, l: Ledger, e: Effect, n: nat)
    requires Wf(s) && Grounded(s, e) && Drops(e)
    ensures StoresWithin(s, l, Perform(s, e), Track(l, s, n, e), Target(s, e))
  {
  }

  lemma RedeemingStores(s: State, l: Ledger, e: Effect, n: nat)
    requires Wf(s) && Grounded(s, e) && Redeems(e)
    ensures StoresWithin(s, l, Perform(s, e), Track(l, s, n, e), Target(s, e))
  {
  }

  lemma FlyingStores(s: State, l: Ledger, e: Effect, n: nat)
    requires Wf(s) && Grounded(s, e) && !Creates(e) && !Drops(e) && !Redeems(e)
    ensures StoresWithin(s, l, Perform(s, e), Track(l, s, n, e), Target(s, e))
  {
  }

  lemma SourceLeaves(s: State, l: Ledger, e: Effect, n: nat)
    requires Wf(s) && Grounded(s, e)
    ensures var src := Source(s, e);
            src.Some? ==> src != Target(s, e) && Held(Perform(s, e), Track(l, s, n, e), src.value) == None
  {
    if Redeems(e) {
      RedeemedLeaves(s, l, e, n);
    } else if e.Send? {
      FlightsAfter(s, e);
      hide Perform, Track, Grounded, Wf;
    } else {
      TakenLeaves(s, l, e, n);
    }
    hide Perform, Track, Grounded, Wf, Held;
  }

  lemma RedeemedLeaves(s: State, l: Ledger, e: Effect, n: nat)
    requires Wf(s) && Redeems(e)
    ensures Held(Perform(s, e), Track(l, s, n, e), GrantPlace(e.grant)) == None
  {
    hide Wf, Track;
  }

  lemma TakenLeaves(s: State, l: Ledger, e: Effect, n: nat)
    requires Wf(s)
    ensures e.ParToCode? ==> Held(Perform(s, e), Track(l, s, n, e), InPar(e.uri)) == None
    ensures e.TokenToFlight? ==> Held(Perform(s, e), Track(l, s, n, e), InTokens(e.token)) == None
  {
    hide Wf, Track;
  }

  lemma LedgerIsKept(s: State, l: Ledger, e: Effect, n: nat)
    requires Wf(s) && Grounded(s, e) && forall r :: r in l.origin ==> r < s.nextRef
    ensures LedgerKeeps(l, Perform(s, e), Track(l, s, n, e), Target(s, e))
  {
  }

  lemma OfferArrives(s: State, l: Ledger, e: Effect, n: nat)
    requires Wf(s) && (e.AddOffer? || e.AddPar?)
    ensures Arrives(s, l, Perform(s, e), Track(l, s, n, e), n, Source(s, e), Target(s, e))
  {
  }

  lemma CodeArrives(s: State, l: Ledger, e: Effect, n: nat)
    requires Wf(s) && Grounded(s, e) && Conserved(s, l, n) && e.ParToCode?
    ensures Arrives(s, l, Perform(s, e), Track(l, s, n, e), n, Source(s, e), Target(s, e))
  {
    assert Held(s, l, InPar(e.uri)).Some?;
    assert e.uri in l.parOrigin;
  }

  lemma GrantOfRef(s: State, l: Ledger, p: Place)
    requires RefAt(s, l, p).Some?
    ensures Held(s, l, p).Some?
    ensures GrantAt(s, l, p) == if RefAt(s, l, p).value in l.origin then Some(GrantOf(l.origin[RefAt(s, l, p).value])) else None
  {
  }

  lemma GrantPlaceHoldsRef(s: State, l: Ledger, grant: Grant)
    requires GrantRef(s, grant).Some?
    ensures RefAt(s, l, GrantPlace(grant)) == GrantRef(s, grant)
  {
  }

  lemma TokenHoldsRef(s: State, l: Ledger, e: Effect, n: nat)
    requires Wf(s) && e.GrantToToken?
    ensures RefAt(Perform(s, e), Track(l, s, n, e), InTokens(e.token)) == Some(e.ref)
    ensures Track(l, s, n, e).origin == l.origin
  {
  }

  lemma TokenArrives(s: State, l: Ledger, e: Effect, n: nat)
    requires Wf(s) && Grounded(s, e) && e.GrantToToken?
    ensures Arrives(s, l, Perform(s, e), Track(l, s, n, e), n, Source(s, e), Target(s, e))
  {
    GrantPlaceHoldsRef(s, l, e.grant);
    GrantOfRef(s, l, GrantPlace(e.grant));
    TokenHoldsRef(s, l, e, n);
    GrantOfRef(Perform(s, e), Track(l, s, n, e), InTokens(e.token));
    hide GrantAt, RefAt, Held, Perform, Track, GrantRef, GrantPlace;
  }

  lemma FlightArrives(s: State, l: Ledger, e: Effect, n: nat)
    requires Wf(s) && Grounded(s, e) && (e.TokenToFlight? || e.Send?)
    ensures Arrives(s, l, Perform(s, e), Track(l, s, n, e), n, Source(s, e), Target(s, e))
  {
  }

  lemma EffectStores(s: State, l: Ledger, e: Effect, n: nat)
    requires Wf(s) && Grounded(s, e)
    ensures StoresWithin(s, l, Perform(s, e), Track(l, s, n, e), Target(s, e))
  {
    if Creates(e) {
      CreatingStores(s, l, e, n);
    } else if Drops(e) {
      DroppingStores(s, l, e, n);
    } else if Redeems(e) {
      RedeemingStores(s, l, e, n);
    } else {
      FlyingStores(s, l, e, n);
    }
    hide Perform, Grounded, Wf, Track, Target, StoresWithin;
  }

  lemma EffectArrives(s: State, l: Ledger, e: Effect, n: nat)
    requires Wf(s) && Grounded(s, e) && Conserved(s, l, n)
    ensures Arrives(s, l, Perform(s, e), Track(l, s, n, e), n, Source(s, e), Target(s, e))
  {
    if e.AddOffer? || e.AddPar? {
      OfferArrives(s, l, e, n);
    } else if e.ParToCode? {
      CodeArrives(s, l, e, n);
    } else if e.GrantToToken? {
      TokenArrives(s, l, e, n);
    } else if e.TokenToFlight? || e.Send? {
      FlightArrives(s, l, e, n);
    } else {
      assert Target(s, e) == None;
    }
    hide Perform, Grounded, Wf, Track, GrantAt;
  }

  /** Every effect of every handler stretch moves at most one entry and conserves the grants. */
  lemma EffectTransfers(s: State, l: Ledger, e: Effect, n: nat)
    requires Wf(s) && Grounded(s, e) && Conserved(s, l, n)
    ensures Transfers(s, l, Perform(s, e), Track(l, s, n, e), n, Source(s, e), Target(s, e))
    ensures Conserved(Perform(s, e), Track(l, s, n, e), n + 1)
  {
    EffectStores(s, l, e, n);
    StoresWithinKeeps(s, l, Perform(s, e), Track(l, s, n, e), Target(s, e));
    SourceLeaves(s, l, e, n);
    LedgerIsKept(s, l, e, n);
    EffectArrives(s, l, e, n);
    TransfersConserve(s, l, Perform(s, e), Track(l, s, n, e), n, Source(s, e), Target(s, e));
    hide Perform, Grounded, Wf, Track, Source, Target, StoresWithin, Keeps, LedgerKeeps, Arrives, Held;
  }

  // ---------------------------------------------------------- status indices

  /** Indices of credentials being signed: below the counter, not sent yet, and pairwise distinct. */
  ghost predicate SigningIndices(flights: map<nat, Flight>, issued: map<nat, Ref>, next: nat) {
    && (forall q :: q in flights && flights[q].Signing? ==> flights[q].idx < next && flights[q].idx !in issued)
    && (forall q, q' :: q in flights && q' in flights && flights[q].Signing? && flights[q'].Signing? && q != q' ==>
                          flights[q].idx != flights[q'].idx)
    && (forall i :: i in issued ==> i < next)
  }

  /** Indices in the admin log: below the counter, pairwise distinct, and for an mDL logged only once it is sent. */
  ghost predicate LoggedIndices(records: seq<IssuedRecord>, flights: map<nat, Flight>, heap: map<Ref, Pending>, next: nat) {
    && (forall i :: 0 <= i < |records| ==> records[i].idx < next)
    && (forall i, j :: 0 <= i < j < |records| ==> records[i].idx != records[j].idx)
    && (forall q, i :: q in flights && IsMdlSigning(flights[q], heap) && 0 <= i < |records| ==> records[i].idx != flights[q].idx)
  }

  ghost predicate IsMdlSigning(f: Flight, heap: map<Ref, Pending>) {
    f.Signing? && f.pending in heap && heap[f.pending].configId == Mdl
  }

  ghost predicate IndicesDistinct(s: State, l: Ledger) {
    && SigningIndices(s.flights, l.issued, s.nextStatusIdx)
    && LoggedIndices(s.issuedRecords, s.flights, s.heap, s.nextStatusIdx)
  }

  lemma SigningFewer(flights: map<nat, Flight>, flights': map<nat, Flight>, issued: map<nat, Ref>, next: nat)
    requires SigningIndices(flights, issued, next)
    requires forall q :: q in flights' && flights'[q].Signing? ==> q in flights && flights'[q] == flights[q]
    ensures SigningIndices(flights', issued, next)
  {
  }

  lemma SigningAccept(flights: map<nat, Flight>, issued: map<nat, Ref>, next: nat, q: nat, r: Ref)
    requires SigningIndices(flights, issued, next)
    ensures SigningIndices(flights[q := Signing(r, next)], issued, next + 1)
  {
  }

  lemma SigningSend(flights: map<nat, Flight>, issued: map<nat, Ref>, next: nat, q: nat)
    requires SigningIndices(flights, issued, next) && q in flights && flights[q].Signing?
    ensures SigningIndices(flights - {q}, issued[flights[q].idx := flights[q].pending], next)
  {
  }

  lemma SigningKept(s: State, l: Ledger, e: Effect, n: nat)
    requires Wf(s) && Grounded(s, e) && SigningIndices(s.flights, l.issued, s.nextStatusIdx)
    ensures var s', l' := Perform(s, e), Track(l, s, n, e); SigningIndices(s'.flights, l'.issued, s'.nextStatusIdx)
  {
    FlightsAfter(s, e);
    hide Perform;
    var s', l' := Perform(s, e), Track(l, s, n, e);
    if e.Accept? {
      SigningAccept(s.flights, l.issued, s.nextStatusIdx, e.request, e.flight.pending);
    } else if e.Send? {
      SigningSend(s.flights, l.issued, s.nextStatusIdx, e.request);
    } else {
      assert l'.issued == l.issued;
      hide Track, Wf;
      SigningFewer(s.flights, s'.flights, l.issued, s.nextStatusIdx);
    }
    hide SigningIndices;
  }

  /** Removing or not touching signing handlers, and keeping configurations, keeps the log's indices apart. */
  lemma LoggedStill(records: seq<IssuedRecord>, flights: map<nat, Flight>, heap: map<Ref, Pending>, next: nat,
                    flights': map<nat, Flight>, heap': map<Ref, Pending>)
    requires LoggedIndices(records, flights, heap, next)
    requires forall q :: q in flights' && IsMdlSigning(flights'[q], heap') ==> q in flights && flights'[q] == flights[q] && IsMdlSigning(flights[q], heap)
    ensures LoggedIndices(records, flights', heap', next)
  {
  }

  lemma LoggedAccept(records: seq<IssuedRecord>, flights: map<nat, Flight>, heap: map<Ref, Pending>, next: nat,
                     issued: map<nat, Ref>, q: nat, r: Ref, entry: seq<IssuedRecord>)
    requires LoggedIndices(records, flights, heap, next) && SigningIndices(flights, issued, next)
    requires r in heap && EntryFor(entry, next, heap[r].configId != Mdl)
    ensures LoggedIndices(records + entry, flights[q := Signing(r, next)], heap, next + 1)
  {
  }

  lemma LoggedSend(records: seq<IssuedRecord>, flights: map<nat, Flight>, heap: map<Ref, Pending>, next: nat,
                   issued: map<nat, Ref>, q: nat, entry: seq<IssuedRecord>)
    requires LoggedIndices(records, flights, heap, next) && SigningIndices(flights, issued, next)
    requires q in flights && flights[q].Signing? && flights[q].pending in heap
    requires EntryFor(entry, flights[q].idx, heap[flights[q].pending].configId == Mdl)
    ensures LoggedIndices(records + entry, flights - {q}, heap, next)
  {
  }

  lemma SigningFlightsKept(s: State, e: Effect)
    requires Wf(s) && Grounded(s, e) && !e.Accept? && !e.Send?
    ensures var s' := Perform(s, e);
            && s'.issuedRecords == s.issuedRecords && s'.nextStatusIdx == s.nextStatusIdx
            && forall q :: q in s'.flights && s'.flights[q].Signing? ==> q in s.flights && s'.flights[q] == s.flights[q]
  {
    FlightsAfter(s, e);
    hide Perform, Wf;
  }

  lemma ConfigsKept(s: State, e: Effect)
    requires Wf(s) && Grounded(s, e)
    ensures forall r :: r in s.heap ==> r in Perform(s, e).heap && SameOffer(Perform(s, e).heap[r], s.heap[r])
  {
    HeapAfter(s, e);
    assert s.nextRef !in s.heap;
    hide Perform, Wf;
  }

  lemma LoggedKept(s: State, l: Ledger, e: Effect)
    requires Wf(s) && Grounded(s, e) && IndicesDistinct(s, l)
    ensures var s' := Perform(s, e); LoggedIndices(s'.issuedRecords, s'.flights, s'.heap, s'.nextStatusIdx)
  {
    var s' := Perform(s, e);
    if e.Accept? {
      LoggedAccept(s.issuedRecords, s.flights, s.heap, s.nextStatusIdx, l.issued, e.request, e.flight.pending, e.entry);
      hide LoggedIndices, SigningIndices;
    } else if e.Send? {
      LoggedSend(s.issuedRecords, s.flights, s.heap, s.nextStatusIdx, l.issued, e.request, e.entry);
      hide LoggedIndices, SigningIndices;
    } else {
      SigningFlightsKept(s, e);
      ConfigsKept(s, e);
      hide Perform, Grounded;
      LoggedStill(s.issuedRecords, s.flights, s.heap, s.nextStatusIdx, s'.flights, s'.heap);
    }
    hide LoggedIndices, SigningIndices;
  }

  lemma EffectKeepsIndices(s: State, l: Ledger, e: Effect, n: nat)
    requires Wf(s) && Grounded(s, e) && IndicesDistinct(s, l)
    ensures IndicesDistinct(Perform(s, e), Track(l, s, n, e))
  {
    SigningKept(s, l, e, n);
    LoggedKept(s, l, e);
    hide Perform, Grounded, Wf, Track, SigningIndices, LoggedIndices;
  }
}
