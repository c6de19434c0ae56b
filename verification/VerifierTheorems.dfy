/** The verifier's promises over whole runs: any wallets and pollers, any interleaving of posts, polls and sweeps. */
module VerifierTheorems {
  import opened Basics
  import opened VerifierModel
  import L = StatusLists

  // ------------------------------------------------- one handler per session

  /** A session has at most one handler, ever: it is consumed first, and a result means the handler is done. */
  ghost predicate Single(s: State)
    requires Wf(s)
  {
    && (forall q :: q in s.flights ==> s.heap[s.flights[q].session].consumed && s.heap[s.flights[q].session].result == None)
    && (forall q, q' :: q in s.flights && q' in s.flights && s.flights[q].session == s.flights[q'].session ==> q == q')
    && (forall r :: r in s.heap && s.heap[r].result.Some? ==> s.heap[r].consumed)
  }

  lemma AddingKeepsSingle(s: State, e: Effect)
    requires Wf(s) && Grounded(s, e) && Single(s) && e.AddSession? && Wf(Perform(s, e))
    ensures Single(Perform(s, e))
  {
    HeapAndFlightsAfter(s, e);
    assert s.nextRef !in s.heap;
    hide Perform;
  }

  lemma ConsumingKeepsSingle(s: State, e: Effect)
    requires Wf(s) && Grounded(s, e) && Single(s) && (e.Consume? || e.Launch?) && Wf(Perform(s, e))
    ensures Single(Perform(s, e))
  {
    HeapAndFlightsAfter(s, e);
    assert forall q :: q in s.flights ==> s.flights[q].session != e.ref;
    hide Perform;
  }

  lemma WorkingKeepsSingle(s: State, e: Effect)
    requires Wf(s) && Grounded(s, e) && Single(s) && (e.SetFlight? || e.EndFlight? || e.Purge?) && Wf(Perform(s, e))
    ensures Single(Perform(s, e))
  {
    HeapAndFlightsAfter(s, e);
    hide Perform;
  }

  lemma FinishingKeepsSingle(s: State, e: Effect)
    requires Wf(s) && Grounded(s, e) && Single(s) && e.Finish? && Wf(Perform(s, e))
    ensures Single(Perform(s, e))
  {
    HeapAndFlightsAfter(s, e);
    assert s.heap[e.ref].consumed;
    hide Perform;
  }

  lemma EffectKeepsSingle(s: State, e: Effect)
    requires Wf(s) && Grounded(s, e) && Single(s) && Wf(Perform(s, e))
    ensures Single(Perform(s, e))
  {
    if e.AddSession? {
      AddingKeepsSingle(s, e);
    } else if e.Consume? || e.Launch? {
      ConsumingKeepsSingle(s, e);
    } else if e.SetFlight? || e.EndFlight? || e.Purge? {
      WorkingKeepsSingle(s, e);
    } else if e.Finish? {
      FinishingKeepsSingle(s, e);
    } else {
      HeapAndFlightsAfter(s, e);
      hide Perform, Grounded, Wf;
      assert Perform(s, e).heap == s.heap && Perform(s, e).flights == s.flights;
    }
    hide Single, Perform, Grounded, Wf;
  }

  /** What no effect changes about a session. */
  lemma SessionsKeepTheirIdentity(s: State, e: Effect, r: Ref)
    requires Wf(s) && Grounded(s, e) && r in s.heap
    ensures r in Perform(s, e).heap
    ensures var p, p' := s.heap[r], Perform(s, e).heap[r];
            p'.nonce == p.nonce && p'.resultToken == p.resultToken && p'.mdoc == p.mdoc && p'.createdAt == p.createdAt && (p.consumed ==> p'.consumed)
  {
    assert r < s.nextRef;
    HeapAndFlightsAfter(s, e);
    hide Wf, Perform;
  }

  /** The session's nonce has gone to verification, or never will. */
  ghost predicate PastTrust(s: State, r: Ref) {
    r in s.heap && s.heap[r].consumed && forall q :: q in s.flights && s.flights[q].session == r ==> !s.flights[q].stage.ResolvingTrust?
  }

  /** The session is done, and its result has been purged or never was. */
  ghost predicate Spent(s: State, r: Ref) {
    r in s.heap && s.heap[r].consumed && s.heap[r].result == None && forall q :: q in s.flights ==> s.flights[q].session != r
  }

  lemma EffectKeepsPastTrust(s: State, e: Effect, r: Ref)
    requires Wf(s) && Grounded(s, e) && PastTrust(s, r)
    ensures PastTrust(Perform(s, e), r)
  {
    assert r < s.nextRef;
    HeapAndFlightsAfter(s, e);
    hide Wf, Perform;
  }

  lemma EffectKeepsSpent(s: State, e: Effect, r: Ref)
    requires Wf(s) && Grounded(s, e) && Spent(s, r)
    ensures Spent(Perform(s, e), r)
  {
    assert r < s.nextRef;
    HeapAndFlightsAfter(s, e);
    hide Wf, Perform;
  }

  // ------------------------------------------------------------------- runs

  lemma {:induction false} RunIsSingle(cfg: Config, input: seq<Timed>)
    ensures Single(Run(cfg, input).0)
  {
    if input != [] {
      var before, last := input[..|input| - 1], input[|input| - 1];
      var s := Run(cfg, before).0;
      RunIsSingle(cfg, before);
      DecisionsAreGrounded(cfg, s, last.now, last.event);
      StepKeepsWf(cfg, s, last.now, last.event);
      EffectKeepsSingle(s, Decide(cfg, s, last.now, last.event).0);
      hide Decide, Perform, Wf, Single, Grounded;
    }
  }

  /** A longer run continues the shorter one. */
  lemma {:induction false} RunContinues(cfg: Config, input: seq<Timed>, n: nat)
    requires n <= |input|
    ensures Run(cfg, input[..n]).1 == Run(cfg, input).1[..n]
    ensures n < |input| ==>
              var s := Run(cfg, input[..n]).0;
              var (s', response) := Step(cfg, s, input[n].now, input[n].event);
              Run(cfg, input[..n + 1]).0 == s' && Run(cfg, input).1[n] == Entry(input[n].now, input[n].event, response)
    decreases |input|
  {
    hide Step, Wf;
    if n == |input| {
      assert input[..n] == input;
    } else {
      assert input[..n + 1][..n] == input[..n];
      var before := input[..|input| - 1];
      if n < |before| {
        RunContinues(cfg, before, n);
        assert before[..n] == input[..n] && before[..n + 1] == input[..n + 1];
      } else {
        assert input[..n + 1] == input;
      }
    }
  }

  lemma StepKeepsProgress(cfg: Config, s: State, now: int, event: Event, r: Ref)
    requires Wf(s) && r in s.heap
    ensures var s' := Step(cfg, s, now, event).0;
            && r in s'.heap && s'.heap[r].nonce == s.heap[r].nonce && s'.heap[r].resultToken == s.heap[r].resultToken
            && (PastTrust(s, r) ==> PastTrust(s', r)) && (Spent(s, r) ==> Spent(s', r))
  {
    var e := Decide(cfg, s, now, event).0;
    DecisionsAreGrounded(cfg, s, now, event);
    SessionsKeepTheirIdentity(s, e, r);
    if PastTrust(s, r) { EffectKeepsPastTrust(s, e, r); }
    if Spent(s, r) { EffectKeepsSpent(s, e, r); }
    hide Decide, Perform, Wf, PastTrust, Spent, Grounded;
  }

  /** A session that is past trust resolution, or spent, stays so, under its own nonce and result token. */
  lemma {:induction false} ProgressForever(cfg: Config, input: seq<Timed>, i: nat, j: nat, r: Ref)
    requires i <= j <= |input| && r in Run(cfg, input[..i]).0.heap
    ensures var s, t := Run(cfg, input[..i]).0, Run(cfg, input[..j]).0;
            && r in t.heap && t.heap[r].nonce == s.heap[r].nonce && t.heap[r].resultToken == s.heap[r].resultToken
            && (PastTrust(s, r) ==> PastTrust(t, r)) && (Spent(s, r) ==> Spent(t, r))
    decreases j
  {
    hide *;
    if i < j {
      ProgressForever(cfg, input, i, j - 1, r);
      RunContinues(cfg, input, j - 1);
      StepKeepsProgress(cfg, Run(cfg, input[..j - 1]).0, input[j - 1].now, input[j - 1].event, r);
    }
  }

  // ------------------------------------------------------------ unique names

  /** No nonce and no result token is minted twice. */
  ghost predicate MintedOnce(input: seq<Timed>) {
    forall i, j :: 0 <= i < j < |input| && input[i].event.PostRequest? && input[j].event.PostRequest? ==>
      input[i].event.newNonce != input[j].event.newNonce && input[i].event.newToken != input[j].event.newToken
  }

  ghost predicate MintedAt(input: seq<Timed>, k: int, p: Session) {
    0 <= k < |input| && input[k].event.PostRequest? && input[k].event.newNonce == p.nonce && input[k].event.newToken == p.resultToken
  }

  ghost predicate AllMinted(input: seq<Timed>, heap: map<Ref, Session>) {
    && (forall r :: r in heap ==> exists k :: MintedAt(input, k, heap[r]))
    && (forall r, r' :: r in heap && r' in heap && r != r' ==> heap[r].nonce != heap[r'].nonce && heap[r].resultToken != heap[r'].resultToken)
  }

  /** Sessions keep their names; a step can only add the one it just minted. */
  ghost predicate Minting(heap: map<Ref, Session>, heap': map<Ref, Session>, next: Ref, event: Event) {
    forall r :: r in heap' ==>
      || (r in heap && heap'[r].nonce == heap[r].nonce && heap'[r].resultToken == heap[r].resultToken)
      || (r == next && event.PostRequest? && heap'[r].nonce == event.newNonce && heap'[r].resultToken == event.newToken)
  }

  lemma NewSession(cfg: Config, s: State, now: int, event: Event)
    requires Wf(s)
    ensures var e := Decide(cfg, s, now, event).0;
            e.AddSession? ==> event.PostRequest? && e.session.nonce == event.newNonce && e.session.resultToken == event.newToken
  {
    hide Check, WithDcql, WithStatus, L.ReadStatus, NamedIssuer, FindToken;
  }

  lemma HeapGrows(s: State, e: Effect)
    requires Wf(s)
    ensures forall r :: r in Perform(s, e).heap ==> r in s.heap || (e.AddSession? && r == s.nextRef && Perform(s, e).heap[r] == e.session)
  {
  }

  lemma HeapAfter(cfg: Config, s: State, now: int, event: Event)
    requires Wf(s)
    ensures Minting(s.heap, Step(cfg, s, now, event).0.heap, s.nextRef, event)
  {
    NewSession(cfg, s, now, event);
    HeapGrows(s, Decide(cfg, s, now, event).0);
    var s' := Step(cfg, s, now, event).0;
    hide Decide, Perform;
    forall r | r in s'.heap && r in s.heap
      ensures s'.heap[r].nonce == s.heap[r].nonce && s'.heap[r].resultToken == s.heap[r].resultToken
    {
      StepKeepsProgress(cfg, s, now, event, r);
    }
    hide Wf;
  }

  lemma MintedStill(before: seq<Timed>, last: Timed, heap: map<Ref, Session>, heap': map<Ref, Session>, next: Ref)
    requires MintedOnce(before + [last]) && AllMinted(before, heap) && Minting(heap, heap', next, last.event)
    ensures AllMinted(before + [last], heap')
  {
    var input := before + [last];
    forall r | r in heap'
      ensures exists k :: MintedAt(input, k, heap'[r])
    {
      if r in heap && heap'[r].nonce == heap[r].nonce && heap'[r].resultToken == heap[r].resultToken {
        var k :| MintedAt(before, k, heap[r]);
        assert MintedAt(input, k, heap'[r]);
      } else {
        assert MintedAt(input, |before|, heap'[r]);
      }
    }
    forall r | r in heap && last.event.PostRequest?
      ensures heap[r].nonce != last.event.newNonce && heap[r].resultToken != last.event.newToken
    {
      var k :| MintedAt(before, k, heap[r]);
      assert input[k] == before[k] && input[|before|] == last;
    }
  }

  lemma {:induction false} RunMints(cfg: Config, input: seq<Timed>)
    requires MintedOnce(input)
    ensures AllMinted(input, Run(cfg, input).0.heap)
  {
    if input != [] {
      var before, last := input[..|input| - 1], input[|input| - 1];
      RunMints(cfg, before);
      var s := Run(cfg, before).0;
      HeapAfter(cfg, s, last.now, last.event);
      assert input == before + [last];
      assert Run(cfg, input).0 == Step(cfg, s, last.now, last.event).0;
      hide *;
      MintedStill(before, last, s.heap, Step(cfg, s, last.now, last.event).0.heap, s.nextRef);
    }
  }

  // ------------------------------------------------------------ exactly once

  lemma NonceGoesToVerification(cfg: Config, s: State, now: int, event: Event)
    requires Wf(s) && Single(s) && Step(cfg, s, now, event).1.VerifyingNonce?
    ensures event.TrustResolved? && event.request in s.flights && s.flights[event.request].stage.ResolvingTrust?
    ensures var r := s.flights[event.request].session;
            && Step(cfg, s, now, event).1.nonce == s.heap[r].nonce
            && PastTrust(Step(cfg, s, now, event).0, r) && Step(cfg, s, now, event).0.heap[r].nonce == s.heap[r].nonce
  {
    hide Check, WithDcql, WithStatus, L.ReadStatus, NamedIssuer, FindToken, Without, LiveOnly;
  }

  /** Over any interleaving, a session's nonce reaches verification at most once. */
  lemma NonceVerifiedAtMostOnce(cfg: Config, input: seq<Timed>, i: nat, j: nat)
    requires MintedOnce(input) && i < j < |input|
    requires Run(cfg, input).1[i].response.VerifyingNonce? && Run(cfg, input).1[j].response.VerifyingNonce?
    ensures Run(cfg, input).1[i].response.nonce != Run(cfg, input).1[j].response.nonce
  {
    RunContinues(cfg, input, i);
    RunContinues(cfg, input, j);
    var s, t := Run(cfg, input[..i]).0, Run(cfg, input[..j]).0;
    RunIsSingle(cfg, input[..i]);
    RunIsSingle(cfg, input[..j]);
    hide Step, Run, Wf, Single;
    NonceGoesToVerification(cfg, s, input[i].now, input[i].event);
    NonceGoesToVerification(cfg, t, input[j].now, input[j].event);
    var r := s.flights[input[i].event.request].session;
    var r' := t.flights[input[j].event.request].session;
    ProgressForever(cfg, input, i + 1, j, r);
    RunMints(cfg, input[..j]) by {
      assert forall k :: 0 <= k < j ==> input[..j][k] == input[k];
    }
    InHeap(t, input[j].event.request);
    assert r != r';
  }

  lemma InHeap(s: State, q: nat)
    requires Wf(s) && q in s.flights
    ensures s.flights[q].session in s.heap
  {
  }

  lemma ReadingSpends(cfg: Config, s: State, now: int, token: string)
    requires Wf(s) && Single(s) && Step(cfg, s, now, GetResult(token)).1.Result?
    ensures exists r :: Spent(Step(cfg, s, now, GetResult(token)).0, r) && Step(cfg, s, now, GetResult(token)).0.heap[r].resultToken == token
  {
    FoundToken(s, s.order, token);
    var r := FindToken(s, s.order, token).value;
    var s' := Step(cfg, s, now, GetResult(token)).0;
    assert s' == Perform(s, Purge(r));
    hide FindToken, Step;
    assert Spent(s', r) && s'.heap[r].resultToken == token;
  }

  lemma SpentReadsNothing(cfg: Config, s: State, now: int, token: string, r: Ref)
    requires Wf(s) && Spent(s, r) && s.heap[r].resultToken == token
    requires forall r' :: r' in s.heap && r' != r ==> s.heap[r'].resultToken != token
    ensures !Step(cfg, s, now, GetResult(token)).1.Result?
  {
    FoundToken(s, s.order, token);
  }

  /** Over any interleaving, a result token yields a result at most once; every other poll finds it pending or gone. */
  lemma {:induction false} ResultReadAtMostOnce(cfg: Config, input: seq<Timed>, i: nat, j: nat, token: string)
    requires MintedOnce(input) && i < j < |input| && input[i].event == GetResult(token) && input[j].event == GetResult(token)
    requires Run(cfg, input).1[i].response.Result?
    ensures !Run(cfg, input).1[j].response.Result?
  {
    hide Step, Run, Wf, Single;
    RunContinues(cfg, input, i);
    RunContinues(cfg, input, j);
    var s, t := Run(cfg, input[..i]).0, Run(cfg, input[..j]).0;
    RunIsSingle(cfg, input[..i]);
    ReadingSpends(cfg, s, input[i].now, token);
    var r :| Spent(Run(cfg, input[..i + 1]).0, r) && Run(cfg, input[..i + 1]).0.heap[r].resultToken == token;
    ProgressForever(cfg, input, i + 1, j, r);
    RunMints(cfg, input[..j]) by {
      assert forall k :: 0 <= k < j ==> input[..j][k] == input[k];
    }
    SpentReadsNothing(cfg, t, input[j].now, token, r);
  }
}
