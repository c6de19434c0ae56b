/** The issuer's promises over whole runs. Nothing is assumed of the clients, of the interleaving, or of the
    clock readings; identifiers are unique only where a lemma says so. */
module IssuerRuns {
  import opened Basics
  import opened IssuerModel
  import opened IssuerGrants
  import opened IssuerTheorems

  /** The run without its last event, and that event. */
  function Before(input: seq<Timed>): seq<Timed>
    requires input != []
  {
    input[..|input| - 1]
  }

  lemma {:induction false} RunKeepsInvariant(cfg: Config, input: seq<Timed>)
    ensures Invariant(cfg, Run(cfg, input).0, Past(cfg, input), Run(cfg, input).1)
  {
    if input != [] {
      var (s, log) := Run(cfg, Before(input));
      var last := input[|input| - 1];
      RunKeepsInvariant(cfg, Before(input));
      StepKeepsInvariant(cfg, s, Past(cfg, Before(input)), log, last.now, last.event);
      hide Invariant, Decide, Perform, Track;
    } else {
      hide Decide, Perform, Track;
    }
  }

  // ------------------------------------------------------ what was requested

  ghost predicate RequestedAt(log: seq<Entry>, g: nat) {
    g < |log| && (log[g].response.OfferCreated? || log[g].response.ParAccepted?)
  }

  ghost predicate OriginsRequested(l: Ledger, log: seq<Entry>) {
    && (forall r :: r in l.origin ==> RequestedAt(log, GrantOf(l.origin[r])))
    && (forall u :: u in l.parOrigin ==> RequestedAt(log, l.parOrigin[u]))
  }

  lemma StepKeepsOrigins(cfg: Config, s: State, l: Ledger, log: seq<Entry>, now: int, event: Event)
    requires Wf(s) && OriginsRequested(l, log)
    ensures var (e, response) := Decide(cfg, s, now, event);
            OriginsRequested(Track(l, s, |log|, e), log + [Entry(now, event, response)])
  {
    var (e, response) := Decide(cfg, s, now, event);
    DecisionsAreTimely(cfg, s, now, event);
    var log', l' := log + [Entry(now, event, response)], Track(l, s, |log|, e);
    hide Decide;
    assert forall g :: RequestedAt(log, g) ==> RequestedAt(log', g);
    assert e.AddOffer? || e.AddPar? ==> RequestedAt(log', |log|);
  }

  lemma {:induction false} RunKeepsOrigins(cfg: Config, input: seq<Timed>)
    ensures OriginsRequested(Past(cfg, input), Run(cfg, input).1)
  {
    if input != [] {
      var (s, log) := Run(cfg, Before(input));
      var last := input[|input| - 1];
      RunKeepsOrigins(cfg, Before(input));
      StepKeepsOrigins(cfg, s, Past(cfg, Before(input)), log, last.now, last.event);
      hide OriginsRequested, Decide, Perform, Track;
    }
  }

  /** After any run, every stored code, token and handler and every credential sent descends from one offer or
      PAR that was granted; none of those has two descendants; no pending record is reachable twice; and every
      store is within its limit. */
  lemma {:induction false} GrantsAreConserved(cfg: Config, input: seq<Timed>)
    ensures var (s, log), l := Run(cfg, input), Past(cfg, input);
            && (forall p :: Held(s, l, p).Some? ==> GrantAt(s, l, p).Some? && RequestedAt(log, GrantAt(s, l, p).value))
            && (forall p, q :: GrantAt(s, l, p).Some? && GrantAt(s, l, p) == GrantAt(s, l, q) ==> p == q)
            && (forall p, q :: RefAt(s, l, p).Some? && RefAt(s, l, p) == RefAt(s, l, q) ==> p == q)
            && Capped(s)
  {
    RunKeepsInvariant(cfg, input);
    RunKeepsOrigins(cfg, input);
    var (s, log) := Run(cfg, input);
    var l := Past(cfg, input);
    forall p | Held(s, l, p).Some?
      ensures GrantAt(s, l, p).Some? && RequestedAt(log, GrantAt(s, l, p).value)
    {
      assert GrantAt(s, l, p).Some?;
    }
    forall p, q | RefAt(s, l, p).Some? && RefAt(s, l, p) == RefAt(s, l, q)
      ensures p == q
    {
      GrantOfRef(s, l, p);
      GrantOfRef(s, l, q);
      assert GrantAt(s, l, p).Some?;
    }
  }

  // --------------------------------------------------------------- provenance

  /** The proof accepted at position `i` answers the c_nonce that position `k` gave out, within its lifetime, for
      the grant requested at `o`. */
  ghost predicate Backs(cfg: Config, log: seq<Entry>, i: nat, o: Origin, k: nat) {
    && k < i < |log| && log[i].event.ProofChecked? && log[i].response.ProofAccepted?
    && RedeemedAt(cfg, log, o, k, log[i].response.configId)
    && log[i].event.proof.Some?
    && log[i].event.proof.value == Proof(Some(log[k].event.newNonce), Some(cfg.issuerUrl))
    && log[i].now - log[k].now <= C_NONCE_TTL_MS
  }

  /** A proof was accepted for this index and configuration before position `n`, on the strength of `o`. */
  ghost predicate AcceptedFor(cfg: Config, log: seq<Entry>, n: nat, idx: nat, configId: ConfigId, o: Origin) {
    exists i: nat, k: nat :: i < n <= |log| && log[i].response == ProofAccepted(idx, configId) && Backs(cfg, log, i, o, k)
  }

  ghost predicate ProofsBacked(cfg: Config, log: seq<Entry>) {
    forall i :: 0 <= i < |log| && log[i].response.ProofAccepted? ==> exists o, k :: Backs(cfg, log, i, o, k)
  }

  ghost predicate SigningBacked(cfg: Config, s: State, l: Ledger, log: seq<Entry>)
    requires Wf(s)
  {
    forall q :: q in s.flights && s.flights[q].Signing? ==>
      var f := s.flights[q];
      f.pending in l.origin && AcceptedFor(cfg, log, |log|, f.idx, s.heap[f.pending].configId, l.origin[f.pending])
  }

  ghost predicate CredentialBacked(cfg: Config, l: Ledger, log: seq<Entry>, j: nat)
    requires j < |log| && log[j].response.Credential?
  {
    var idx := log[j].response.idx;
    && idx in l.issued && l.issued[idx] in l.origin
    && AcceptedFor(cfg, log, j, idx, log[j].response.configId, l.origin[l.issued[idx]])
  }

  ghost predicate CredentialsBacked(cfg: Config, l: Ledger, log: seq<Entry>) {
    && (forall j :: 0 <= j < |log| && log[j].response.Credential? ==> CredentialBacked(cfg, l, log, j))
    && (forall i, j :: 0 <= i < j < |log| && log[i].response.Credential? && log[j].response.Credential? ==>
                          log[i].response.idx != log[j].response.idx)
  }

  ghost predicate IndicesAscend(s: State, log: seq<Entry>) {
    && (forall i :: 0 <= i < |log| && log[i].response.ProofAccepted? ==> log[i].response.idx < s.nextStatusIdx)
    && (forall i, j :: 0 <= i < j < |log| && log[i].response.ProofAccepted? && log[j].response.ProofAccepted? ==>
                          log[i].response.idx < log[j].response.idx)
  }

  ghost predicate Provenance(cfg: Config, s: State, l: Ledger, log: seq<Entry>)
    requires Wf(s)
  {
    ProofsBacked(cfg, log) && SigningBacked(cfg, s, l, log) && CredentialsBacked(cfg, l, log) && IndicesAscend(s, log)
  }

  lemma BacksStill(cfg: Config, log: seq<Entry>, x: Entry, i: nat, o: Origin, k: nat)
    requires Backs(cfg, log, i, o, k)
    ensures Backs(cfg, log + [x], i, o, k)
  {
  }

  lemma AcceptedStill(cfg: Config, log: seq<Entry>, x: Entry, n: nat, idx: nat, configId: ConfigId, o: Origin)
    requires AcceptedFor(cfg, log, n, idx, configId, o)
    ensures AcceptedFor(cfg, log + [x], n, idx, configId, o)
  {
    var i: nat, k: nat :| i < n <= |log| && log[i].response == ProofAccepted(idx, configId) && Backs(cfg, log, i, o, k);
    BacksStill(cfg, log, x, i, o, k);
    hide Backs;
    assert (log + [x])[i].response == ProofAccepted(idx, configId);
  }

  /** Which effect goes with which response. */
  lemma ResponseOfEffect(cfg: Config, s: State, now: int, event: Event)
    requires Wf(s)
    ensures var (e, response) := Decide(cfg, s, now, event);
            && (response.ProofAccepted? <==> e.Accept?)
            && (response.Credential? <==> e.Send?)
            && (response.Revoked? <==> e.AddRevoked?)
            && (e.Accept? ==> s.flights.Keys >= {e.request} && s.flights[e.request].CheckingProof? && s.flights[e.request].pending == e.flight.pending
                              && e.flight == Signing(e.flight.pending, s.nextStatusIdx)
                              && response == ProofAccepted(s.nextStatusIdx, s.heap[e.flight.pending].configId))
            && (e.Send? ==> s.flights.Keys >= {e.request} && s.flights[e.request].Signing? &&
                            response == Credential(s.flights[e.request].idx, s.heap[s.flights[e.request].pending].configId))
            && (e.AddRevoked? ==> response == Revoked(e.index) && 0 <= e.index < STATUS_LIST_SIZE)
            && (response.StatusList? ==> response.published == s.revoked)
  {
  }

  /** The proof that a step accepts is for the token of the handler's own record. */
  lemma NewProofBacked(cfg: Config, s: State, l: Ledger, log: seq<Entry>, now: int, request: nat, proof: Option<Proof>)
    requires Wf(s) && DecideProof(cfg, s, now, request, proof).1.ProofAccepted?
    requires request in s.flights && TokenExplained(cfg, log, l, s.flights[request].pending, s.heap[s.flights[request].pending])
    ensures var r := s.flights[request].pending;
            r in l.origin && r in l.redeemed &&
            Backs(cfg, log + [Entry(now, ProofChecked(request, proof), DecideProof(cfg, s, now, request, proof).1)], |log|, l.origin[r], l.redeemed[r])
  {
    var r := s.flights[request].pending;
    var x := Entry(now, ProofChecked(request, proof), DecideProof(cfg, s, now, request, proof).1);
    TokenStill(cfg, log, x, l, l, r, s.heap[r]);
    assert log[l.redeemed[r]] == (log + [x])[l.redeemed[r]];
    hide RedeemedAt;
  }

  lemma AcceptingIsChecking(cfg: Config, s: State, now: int, event: Event)
    requires Wf(s) && Decide(cfg, s, now, event).0.Accept?
    ensures event.ProofChecked? && Decide(cfg, s, now, event) == DecideProof(cfg, s, now, event.request, event.proof)
    ensures event.request in s.flights && Decide(cfg, s, now, event).0.flight.pending == s.flights[event.request].pending
  {
  }

  lemma AcceptStepBacked(cfg: Config, s: State, l: Ledger, log: seq<Entry>, now: int, event: Event)
    requires Invariant(cfg, s, l, log)
    ensures var (e, response) := Decide(cfg, s, now, event);
            e.Accept? ==>
              && e.flight.pending in l.origin && e.flight.pending in l.redeemed
              && Backs(cfg, log + [Entry(now, event, response)], |log|, l.origin[e.flight.pending], l.redeemed[e.flight.pending])
  {
    var (e, response) := Decide(cfg, s, now, event);
    if e.Accept? {
      ResponseOfEffect(cfg, s, now, event);
      AcceptingIsChecking(cfg, s, now, event);
      assert FlightsExplained(cfg, s, l, log);
      hide Decide, DecideProof, Conserved, IndicesDistinct, Capped, Explained, TokenExplained, Backs;
      NewProofBacked(cfg, s, l, log, now, event.request, event.proof);
      hide Wf;
    }
    hide *;
  }

  lemma ProofsStayBacked(cfg: Config, s: State, l: Ledger, log: seq<Entry>, now: int, event: Event)
    requires Invariant(cfg, s, l, log) && ProofsBacked(cfg, log)
    ensures ProofsBacked(cfg, log + [Entry(now, event, Decide(cfg, s, now, event).1)])
  {
    var x := Entry(now, event, Decide(cfg, s, now, event).1);
    var log' := log + [x];
    AcceptStepBacked(cfg, s, l, log, now, event);
    ResponseOfEffect(cfg, s, now, event);
    hide Decide, Invariant, Backs;
    forall i | 0 <= i < |log'| && log'[i].response.ProofAccepted?
      ensures exists o, k :: Backs(cfg, log', i, o, k)
    {
      if i < |log| {
        var o, k :| Backs(cfg, log, i, o, k);
        BacksStill(cfg, log, x, i, o, k);
      }
    }
  }

  /** What a step leaves of the handlers at work on a signature. */
  lemma SigningAfter(s: State, e: Effect)
    requires Wf(s) && Grounded(s, e)
    ensures forall q :: q in Perform(s, e).flights && Perform(s, e).flights[q].Signing? ==>
              || (e.Accept? && q == e.request && Perform(s, e).flights[q] == e.flight && e.flight.pending in s.heap)
              || (q in s.flights && Perform(s, e).flights[q] == s.flights[q])
  {
  }

  lemma SigningStaysBacked(cfg: Config, s: State, l: Ledger, log: seq<Entry>, now: int, event: Event)
    requires Invariant(cfg, s, l, log) && SigningBacked(cfg, s, l, log)
    ensures var (e, response) := Decide(cfg, s, now, event);
            Wf(Perform(s, e)) && SigningBacked(cfg, Perform(s, e), Track(l, s, |log|, e), log + [Entry(now, event, response)])
  {
    var (e, response) := Decide(cfg, s, now, event);
    var x := Entry(now, event, response);
    var s', l', log' := Perform(s, e), Track(l, s, |log|, e), log + [x];
    AcceptStepBacked(cfg, s, l, log, now, event);
    ResponseOfEffect(cfg, s, now, event);
    DecisionsAreGrounded(cfg, s, now, event);
    GroundedKeepsWf(s, e);
    SigningAfter(s, e);
    ConfigsKept(s, e);
    LedgerIsKept(s, l, e, |log|);
    hide Decide, Perform, Track, Grounded, Backs, Explained, IndicesDistinct, Capped, Target, AcceptedFor;
    forall q | q in s'.flights && s'.flights[q].Signing?
      ensures var f := s'.flights[q];
              f.pending in l'.origin && AcceptedFor(cfg, log', |log'|, f.idx, s'.heap[f.pending].configId, l'.origin[f.pending])
    {
      if e.Accept? && q == e.request && s'.flights[q] == e.flight && e.flight.pending in s.heap {
        NewAccepted(cfg, log', |log|, l.origin[e.flight.pending], l.redeemed[e.flight.pending]);
      } else {
        var f := s.flights[q];
        AcceptedStill(cfg, log, x, |log|, f.idx, s.heap[f.pending].configId, l.origin[f.pending]);
        AcceptedLater(cfg, log', |log|, |log'|, f.idx, s.heap[f.pending].configId, l.origin[f.pending]);
      }
    }
    hide Wf;
  }

  lemma NewAccepted(cfg: Config, log: seq<Entry>, i: nat, o: Origin, k: nat)
    requires i < |log| && Backs(cfg, log, i, o, k)
    ensures AcceptedFor(cfg, log, |log|, log[i].response.idx, log[i].response.configId, o)
  {
  }

  lemma AcceptedLater(cfg: Config, log: seq<Entry>, n: nat, n': nat, idx: nat, configId: ConfigId, o: Origin)
    requires AcceptedFor(cfg, log, n, idx, configId, o) && n <= n' <= |log|
    ensures AcceptedFor(cfg, log, n', idx, configId, o)
  {
    hide Backs;
  }

  /** The ledger's record of credentials sent. */
  lemma IssuedAfter(s: State, l: Ledger, e: Effect, n: nat)
    requires e.Send? && e.request in s.flights && s.flights[e.request].Signing?
    ensures Track(l, s, n, e) == l.(issued := l.issued[s.flights[e.request].idx := s.flights[e.request].pending])
  {
  }

  lemma IssuedStill(s: State, l: Ledger, e: Effect, n: nat)
    requires !e.Send?
    ensures Track(l, s, n, e).issued == l.issued
  {
  }

  lemma CredentialStillBacked(cfg: Config, l: Ledger, l': Ledger, log: seq<Entry>, x: Entry, j: nat)
    requires j < |log| && log[j].response.Credential? && CredentialBacked(cfg, l, log, j)
    requires log[j].response.idx in l'.issued && l'.issued[log[j].response.idx] == l.issued[log[j].response.idx]
    requires forall r :: r in l.origin ==> r in l'.origin && l'.origin[r] == l.origin[r]
    ensures CredentialBacked(cfg, l', log + [x], j)
  {
    var idx := log[j].response.idx;
    AcceptedStill(cfg, log, x, j, idx, log[j].response.configId, l.origin[l.issued[idx]]);
    hide AcceptedFor;
  }

  lemma SentIsBacked(cfg: Config, s: State, l: Ledger, log: seq<Entry>, x: Entry, e: Effect)
    requires Wf(s) && SigningBacked(cfg, s, l, log) && SigningIndices(s.flights, l.issued, s.nextStatusIdx)
    requires e.Send? && e.request in s.flights && s.flights[e.request].Signing?
    requires x.response == Credential(s.flights[e.request].idx, s.heap[s.flights[e.request].pending].configId)
    ensures CredentialBacked(cfg, Track(l, s, |log|, e), log + [x], |log|)
    ensures x.response.idx !in l.issued
    ensures forall i :: i in l.issued ==> i in Track(l, s, |log|, e).issued && Track(l, s, |log|, e).issued[i] == l.issued[i]
  {
    IssuedAfter(s, l, e, |log|);
    var f := s.flights[e.request];
    hide Track, Wf, AcceptedFor;
    AcceptedStill(cfg, log, x, |log|, f.idx, s.heap[f.pending].configId, l.origin[f.pending]);
  }

  lemma CredentialsStayBacked(cfg: Config, s: State, l: Ledger, log: seq<Entry>, now: int, event: Event)
    requires Invariant(cfg, s, l, log) && SigningBacked(cfg, s, l, log) && CredentialsBacked(cfg, l, log)
    ensures var (e, response) := Decide(cfg, s, now, event);
            CredentialsBacked(cfg, Track(l, s, |log|, e), log + [Entry(now, event, response)])
  {
    var (e, response) := Decide(cfg, s, now, event);
    var x := Entry(now, event, response);
    var l', log' := Track(l, s, |log|, e), log + [x];
    ResponseOfEffect(cfg, s, now, event);
    DecisionsAreGrounded(cfg, s, now, event);
    LedgerIsKept(s, l, e, |log|);
    assert SigningIndices(s.flights, l.issued, s.nextStatusIdx);
    if e.Send? {
      hide *;
      SentIsBacked(cfg, s, l, log, x, e);
    } else {
      hide *;
      IssuedStill(s, l, e, |log|);
    }
    hide *;
    OldCredentialsBacked(cfg, l, l', log, x);
    ExtendBacked(cfg, l, l', log, x);
  }

  /** The credentials already sent stay backed by a ledger that only grows. */
  lemma OldCredentialsBacked(cfg: Config, l: Ledger, l': Ledger, log: seq<Entry>, x: Entry)
    requires CredentialsBacked(cfg, l, log)
    requires forall i :: i in l.issued ==> i in l'.issued && l'.issued[i] == l.issued[i]
    requires forall r :: r in l.origin ==> r in l'.origin && l'.origin[r] == l.origin[r]
    ensures forall j :: 0 <= j < |log| && log[j].response.Credential? ==>
              (log + [x])[j] == log[j] && CredentialBacked(cfg, l', log + [x], j) && log[j].response.idx in l.issued
  {
    forall j | 0 <= j < |log| && log[j].response.Credential?
      ensures (log + [x])[j] == log[j] && CredentialBacked(cfg, l', log + [x], j) && log[j].response.idx in l.issued
    {
      assert CredentialBacked(cfg, l, log, j);
      CredentialStillBacked(cfg, l, l', log, x, j);
      hide AcceptedFor;
    }
  }

  lemma ExtendBacked(cfg: Config, l: Ledger, l': Ledger, log: seq<Entry>, x: Entry)
    requires CredentialsBacked(cfg, l, log)
    requires forall j :: 0 <= j < |log| && log[j].response.Credential? ==>
               (log + [x])[j] == log[j] && CredentialBacked(cfg, l', log + [x], j) && log[j].response.idx in l.issued
    requires x.response.Credential? ==> CredentialBacked(cfg, l', log + [x], |log|) && x.response.idx !in l.issued
    ensures CredentialsBacked(cfg, l', log + [x])
  {
    hide CredentialBacked;
  }

  lemma NextIndex(s: State, e: Effect)
    requires Wf(s)
    ensures Perform(s, e).nextStatusIdx == if e.Accept? then s.nextStatusIdx + 1 else s.nextStatusIdx
  {
  }

  lemma IndicesStillAscend(cfg: Config, s: State, log: seq<Entry>, now: int, event: Event)
    requires Wf(s) && IndicesAscend(s, log)
    ensures var (e, response) := Decide(cfg, s, now, event);
            IndicesAscend(Perform(s, e), log + [Entry(now, event, response)])
  {
    ResponseOfEffect(cfg, s, now, event);
    NextIndex(s, Decide(cfg, s, now, event).0);
    hide Decide, Perform, Wf;
  }

  lemma {:induction false} RunKeepsProvenance(cfg: Config, input: seq<Timed>)
    ensures Provenance(cfg, Run(cfg, input).0, Past(cfg, input), Run(cfg, input).1)
  {
    if input != [] {
      var (s, log) := Run(cfg, Before(input));
      var last := input[|input| - 1];
      var l := Past(cfg, Before(input));
      RunKeepsInvariant(cfg, Before(input));
      RunKeepsProvenance(cfg, Before(input));
      ProofsStayBacked(cfg, s, l, log, last.now, last.event);
      SigningStaysBacked(cfg, s, l, log, last.now, last.event);
      CredentialsStayBacked(cfg, s, l, log, last.now, last.event);
      IndicesStillAscend(cfg, s, log, last.now, last.event);
      hide Invariant, Decide, Perform, Track, ProofsBacked, SigningBacked, CredentialsBacked, IndicesAscend;
    } else {
      hide Decide, Perform, Track;
    }
  }

  /** How old a grant can be when a proof for it is accepted. */
  function MaxAge(o: Origin): int {
    match o
    case FromOffer(_) => PRE_AUTH_CODE_TTL_MS + C_NONCE_TTL_MS
    case FromPar(_, _) => PAR_TTL_MS + AUTH_CODE_TTL_MS + C_NONCE_TTL_MS
  }

  /** A proof accepted at any position of any run answers a token redeemed from an offer made at most 330 s
      earlier for the same configuration, or from a PAR pushed at most 450 s earlier whose client and S256
      challenge the token request matched. */
  lemma {:induction false} AcceptedProofsHaveProvenance(cfg: Config, input: seq<Timed>, i: nat)
    requires i < |input| && Run(cfg, input).1[i].response.ProofAccepted?
    ensures var log := Run(cfg, input).1;
            exists o, k :: Backs(cfg, log, i, o, k) && RequestedAt(log, GrantOf(o)) && log[i].now - log[GrantOf(o)].now <= MaxAge(o)
    ensures MaxAge(FromOffer(0)) == 330_000 && MaxAge(FromPar(0, 0)) == 450_000
  {
    RunKeepsProvenance(cfg, input);
    var log := Run(cfg, input).1;
    var o, k :| Backs(cfg, log, i, o, k);
  }

  /** No identifier is minted twice. */
  ghost predicate MintedOnce(input: seq<Timed>) {
    forall i, j :: 0 <= i < j < |input| ==>
      && (input[i].event.PostOffer? && input[j].event.PostOffer? ==> input[i].event.offerCode != input[j].event.offerCode)
      && (input[i].event.PostPar? && input[j].event.PostPar? ==> input[i].event.newUri != input[j].event.newUri)
      && (input[i].event.GetAuthorize? && input[j].event.GetAuthorize? ==> input[i].event.newCode != input[j].event.newCode)
      && (input[i].event.PostToken? && input[j].event.PostToken? ==> input[i].event.newNonce != input[j].event.newNonce)
  }

  lemma {:induction false} LogIsTheInput(cfg: Config, input: seq<Timed>)
    ensures forall i :: 0 <= i < |input| ==> Run(cfg, input).1[i].now == input[i].now && Run(cfg, input).1[i].event == input[i].event
  {
    if input != [] {
      LogIsTheInput(cfg, Before(input));
      hide Decide, Perform;
    }
  }

  /** When identifiers are unique, the offer or PAR behind an accepted proof is unique too. */
  lemma ProvenanceIsUnique(cfg: Config, input: seq<Timed>, i: nat, o: Origin, k: nat, o': Origin, k': nat)
    requires MintedOnce(input) && i < |input|
    requires Backs(cfg, Run(cfg, input).1, i, o, k) && Backs(cfg, Run(cfg, input).1, i, o', k')
    ensures o == o' && k == k'
  {
    LogIsTheInput(cfg, input);
    var log := Run(cfg, input).1;
    hide Decide, Perform, Run;
    assert input[k].event.newNonce == input[k'].event.newNonce;
    assert k == k';
    match (o, o') {
      case (FromOffer(g), FromOffer(g')) => assert input[g].event.offerCode == input[g'].event.offerCode;
      case (FromPar(g, a), FromPar(g', a')) =>
        assert input[a].event.newCode == input[a'].event.newCode;
        assert input[g].event.newUri == input[g'].event.newUri;
      case _ =>
    }
  }

  /** Every credential sent had its proof accepted, for the same index, configuration and grant; and no two
      credentials, whatever the interleaving, come from one grant or share a status index. */
  lemma {:induction false} OneCredentialPerGrant(cfg: Config, input: seq<Timed>)
    ensures var (s, log), l := Run(cfg, input), Past(cfg, input);
            && (forall j :: 0 <= j < |log| && log[j].response.Credential? ==>
                  && CredentialBacked(cfg, l, log, j)
                  && GrantAt(s, l, InIssued(log[j].response.idx)) == Some(GrantOf(l.origin[l.issued[log[j].response.idx]])))
            && (forall i, j :: 0 <= i < j < |log| && log[i].response.Credential? && log[j].response.Credential? ==>
                  && log[i].response.idx != log[j].response.idx
                  && GrantAt(s, l, InIssued(log[i].response.idx)) != GrantAt(s, l, InIssued(log[j].response.idx)))
  {
    RunKeepsProvenance(cfg, input);
    RunKeepsInvariant(cfg, input);
    var (s, log) := Run(cfg, input);
    var l := Past(cfg, input);
    hide Run, Past, AcceptedFor, Explained, IndicesDistinct;
    forall i, j | 0 <= i < j < |log| && log[i].response.Credential? && log[j].response.Credential?
      ensures GrantAt(s, l, InIssued(log[i].response.idx)) != GrantAt(s, l, InIssued(log[j].response.idx))
    {
      assert CredentialBacked(cfg, l, log, i) && CredentialBacked(cfg, l, log, j);
      assert InIssued(log[i].response.idx) != InIssued(log[j].response.idx);
    }
  }

  // ----------------------------------------------- status indices, revocation

  /** Status indices are handed out in ascending order, and the admin log never repeats one. */
  lemma {:induction false} StatusIndicesAreDistinct(cfg: Config, input: seq<Timed>)
    ensures var (s, log) := Run(cfg, input);
            && (forall i, j :: 0 <= i < j < |log| && log[i].response.ProofAccepted? && log[j].response.ProofAccepted? ==>
                  log[i].response.idx < log[j].response.idx)
            && (forall i, j :: 0 <= i < j < |s.issuedRecords| ==> s.issuedRecords[i].idx != s.issuedRecords[j].idx)
  {
    RunKeepsProvenance(cfg, input);
    RunKeepsInvariant(cfg, input);
    hide Run, Past, Explained, Conserved, SigningIndices;
  }

  lemma RevokedAfter(s: State, e: Effect)
    requires Wf(s)
    ensures Perform(s, e).revoked == if e.AddRevoked? then s.revoked + {e.index} else s.revoked
  {
  }

  ghost predicate RevokedBefore(log: seq<Entry>, n: nat, idx: int)
    requires n <= |log|
  {
    exists i :: 0 <= i < n && log[i].response == Revoked(idx)
  }

  ghost predicate ListsArePast(log: seq<Entry>) {
    forall j, idx :: 0 <= j < |log| && log[j].response.StatusList? ==> (idx in log[j].response.published <==> RevokedBefore(log, j, idx))
  }

  /** The revoked set is the history of accepted revocations. */
  lemma {:induction false} RevokedIsHistory(cfg: Config, input: seq<Timed>)
    ensures var (s, log) := Run(cfg, input);
            && (forall idx :: idx in s.revoked <==> RevokedBefore(log, |log|, idx))
            && (forall i :: 0 <= i < |log| && log[i].response.Revoked? ==> 0 <= log[i].response.revokedIdx < STATUS_LIST_SIZE)
            && ListsArePast(log)
  {
    if input != [] {
      var (s, log) := Run(cfg, Before(input));
      var last := input[|input| - 1];
      RevokedIsHistory(cfg, Before(input));
      ResponseOfEffect(cfg, s, last.now, last.event);
      RevokedAfter(s, Decide(cfg, s, last.now, last.event).0);
      hide Decide, Perform, Wf;
      var log' := Run(cfg, input).1;
      assert log' == log + [log'[|log|]];
      forall idx, n: nat | n <= |log|
        ensures RevokedBefore(log', n, idx) == RevokedBefore(log, n, idx)
      {
        assert forall i :: 0 <= i < n ==> log'[i] == log[i];
      }
      assert forall idx :: RevokedBefore(log', |log'|, idx) <==> (RevokedBefore(log, |log|, idx) || log'[|log|].response == Revoked(idx));
    }
  }

  /** Every status list published contains exactly the indices whose revocation was accepted before. */
  lemma PublishedListsAreExact(cfg: Config, input: seq<Timed>, j: nat, idx: int)
    requires j < |input| && Run(cfg, input).1[j].response.StatusList?
    ensures var log := Run(cfg, input).1;
            idx in log[j].response.published <==> exists i :: 0 <= i < j && log[i].response == Revoked(idx)
  {
    RevokedIsHistory(cfg, input);
    hide Run;
  }
}
