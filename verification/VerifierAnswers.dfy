/** What the verifier answers, told from the history of requests alone: which request object a session gives out, which
    posts are taken up, what each handler stretch answers, and what a result token reads. */
module VerifierAnswers {
  import opened Basics
  import opened VerifierModel
  import opened VerifierTheorems
  import opened VerifierVerdicts
  import opened VerifierService
  import S = SdJwt
  import D = Mdoc
  import Q = Dcql
  import L = StatusLists
  import C = CompactForm

  // ------------------------------------------------------- standing sessions

  /** The answered request opened a session under this identifier. */
  predicate Opens(x: Entry, id: string) {
    x.event.PostRequest? && x.event.newId == id && x.response.RequestCreated?
  }

  /** The request dropped a session opened at that time: a sweep, or a post to it, more than five minutes later. */
  predicate Drops(x: Entry, id: string, createdAt: int) {
    x.now - createdAt > 300_000 && (x.event.Sweep? || (x.event.PostResponse? && x.event.id == id && x.response != NoSuchHandler))
  }

  /** At position `n` the session opened at `k` is the one stored under its identifier. */
  ghost predicate Standing(log: seq<Entry>, k: nat, n: nat, id: string) {
    && k < n <= |log| && Opens(log[k], id)
    && forall i :: k < i < n ==> !Opens(log[i], id) && !Drops(log[i], id, log[k].now)
  }

  lemma DropsExactly(cfg: Config, s: State, now: int, event: Event, id: string)
    requires Wf(s)
    ensures var (e, response) := Decide(cfg, s, now, event);
            var x := Entry(now, event, response);
            && (e.AddSession? && e.id == id <==> Opens(x, id))
            && (Opens(x, id) ==> e.session == Session(event.newNonce, event.mdoc, now, false, event.newToken, None) && response == RequestCreated(id, event.newToken))
            && (id in s.sessions ==>
                  var createdAt := s.heap[s.sessions[id]].createdAt;
                  (e == DropSession(id) || (e.DropExpired? && e.now - createdAt > 300_000) <==> Drops(x, id, createdAt)))
  {
    hide Check, WithDcql, WithStatus, L.ReadStatus, NamedIssuer, FindToken;
  }

  lemma Added(s: State, e: Effect)
    requires Wf(s) && e.AddSession?
    ensures var s' := Perform(s, e); e.id in s'.sessions && s'.sessions[e.id] in s'.heap && s'.heap[s'.sessions[e.id]] == e.session
  {
  }

  lemma SameRef(s: State, e: Effect, id: string)
    requires Wf(s) && id in s.sessions && id in Perform(s, e).sessions && !(e.AddSession? && e.id == id)
    ensures Perform(s, e).sessions[id] == s.sessions[id]
  {
    hide LiveOnly, Without, Expired;
  }

  /** What one request does to what is stored under an identifier. */
  lemma StepTells(cfg: Config, s: State, now: int, event: Event, id: string)
    requires Wf(s) && OneIdEach(s)
    ensures var (s', response) := Step(cfg, s, now, event);
            var x := Entry(now, event, response);
            && Wf(s')
            && (Opens(x, id) ==>
                  id in s'.sessions && s'.heap[s'.sessions[id]] == Session(event.newNonce, event.mdoc, now, false, event.newToken, None))
            && (!Opens(x, id) && id !in s.sessions ==> id !in s'.sessions)
            && (!Opens(x, id) && id in s.sessions ==>
                  var p := s.heap[s.sessions[id]];
                  && (id in s'.sessions <==> !Drops(x, id, p.createdAt))
                  && (id in s'.sessions ==>
                        && SameSession(p, s'.heap[s'.sessions[id]]) && s'.sessions[id] == s.sessions[id]
                        && s'.heap[s'.sessions[id]].consumed == (p.consumed || UsesUp(x, id))))
  {
    var (e, response) := Decide(cfg, s, now, event);
    DropsExactly(cfg, s, now, event, id);
    EventsBehind(cfg, s, now, event);
    DecisionsAreGrounded(cfg, s, now, event);
    GroundedKeepsWf(s, e);
    if e.AddSession? && e.id == id {
      Added(s, e);
    } else if id in s.sessions {
      LookupAfter(s, e, id);
      SessionsKeepTheirIdentity(s, e, s.sessions[id]);
      if id in Perform(s, e).sessions { SameRef(s, e, id); }
      assert (e.Consume? || e.Launch?) && e.ref == s.sessions[id] ==> event.id == id;
    } else {
      NothingAppears(s, e, id);
    }
    hide Decide, Perform, Grounded, OneIdEach, Drops;
  }

  // ------------------------------------------------------------------- runs

  /** The store holds the session opened at `k`, used up exactly by the posts since. */
  ghost predicate HeldAs(s: State, log: seq<Entry>, k: nat, id: string)
    requires Wf(s)
  {
    && Standing(log, k, |log|, id) && id in s.sessions
    && OpenedAs(log, k, s.heap[s.sessions[id]]) && (s.heap[s.sessions[id]].consumed <==> UsedBetween(log, k, |log|, id))
  }

  ghost predicate Told(s: State, log: seq<Entry>, id: string)
    requires Wf(s)
  {
    if id in s.sessions then exists k: nat :: HeldAs(s, log, k, id) else forall k: nat :: !Standing(log, k, |log|, id)
  }

  lemma StandingOneMore(log: seq<Entry>, x: Entry, k: nat, id: string)
    ensures k < |log| ==> (Standing(log + [x], k, |log| + 1, id) <==> Standing(log, k, |log|, id) && !Opens(x, id) && !Drops(x, id, log[k].now))
    ensures Standing(log + [x], |log|, |log| + 1, id) <==> Opens(x, id)
  {
    hide Opens, Drops;
    var log' := log + [x];
    assert forall i :: 0 <= i < |log| ==> log'[i] == log[i];
    if k < |log| && Standing(log', k, |log| + 1, id) {
      assert log'[|log|] == x;
    }
  }

  lemma UsedSinceOpening(log: seq<Entry>, x: Entry, id: string)
    ensures !UsedBetween(log + [x], |log|, |log| + 1, id)
  {
  }

  lemma UsedStill(log: seq<Entry>, x: Entry, k: nat, id: string)
    requires k < |log|
    ensures UsedBetween(log + [x], k, |log| + 1, id) <==> UsedBetween(log, k, |log|, id) || UsesUp(x, id)
  {
    hide UsesUp;
    var log' := log + [x];
    assert forall i :: 0 <= i < |log| ==> log'[i] == log[i];
    assert log'[|log|] == x;
    UsedOneMore(log', k, |log|, id);
  }

  lemma OpenedStill(log: seq<Entry>, x: Entry, k: nat, p: Session, p': Session)
    requires OpenedAs(log, k, p) && SameSession(p, p')
    ensures OpenedAs(log + [x], k, p')
  {
  }

  lemma StepKeepsTold(cfg: Config, s: State, log: seq<Entry>, now: int, event: Event, id: string)
    requires Wf(s) && OneIdEach(s) && Told(s, log, id)
    ensures var (s', response) := Step(cfg, s, now, event); Wf(s') && Told(s', log + [Entry(now, event, response)], id)
  {
    var (s', response) := Step(cfg, s, now, event);
    var x := Entry(now, event, response);
    var log' := log + [x];
    StepTells(cfg, s, now, event, id);
    hide Step, Wf, OneIdEach, Opens, Drops, UsesUp, Standing, UsedBetween, SameSession;
    if Opens(x, id) {
      StandingOneMore(log, x, |log|, id);
      UsedSinceOpening(log, x, id);
      OpensAs(log, x, id, s'.heap[s'.sessions[id]]);
      assert HeldAs(s', log', |log|, id);
    } else if id in s.sessions {
      var k: nat :| HeldAs(s, log, k, id);
      StandingOneMore(log, x, k, id);
      UsedStill(log, x, k, id);
      if id in s'.sessions {
        OpenedStill(log, x, k, s.heap[s.sessions[id]], s'.heap[s'.sessions[id]]);
        assert HeldAs(s', log', k, id);
      } else {
        forall k': nat
          ensures !Standing(log', k', |log'|, id)
        {
          StandingOneMore(log, x, k', id);
          StandsAlone(log, k, k', |log|, id);
          StandingBounds(log', k', |log'|, id);
        }
      }
    } else {
      forall k': nat
        ensures !Standing(log', k', |log'|, id)
      {
        StandingOneMore(log, x, k', id);
        StandingBounds(log', k', |log'|, id);
      }
    }
  }

  lemma OpensAs(log: seq<Entry>, x: Entry, id: string, p: Session)
    requires Opens(x, id) && p == Session(x.event.newNonce, x.event.mdoc, x.now, false, x.event.newToken, None)
    ensures OpenedAs(log + [x], |log|, p)
  {
  }

  lemma StandingBounds(log: seq<Entry>, k: nat, n: nat, id: string)
    ensures Standing(log, k, n, id) ==> k < n <= |log|
  {
  }

  /** One session stands under an identifier at a time. */
  lemma StandsAlone(log: seq<Entry>, k: nat, k': nat, n: nat, id: string)
    requires Standing(log, k, n, id)
    ensures Standing(log, k', n, id) ==> k == k'
  {
    hide Opens, Drops;
  }

  lemma {:induction false} RunIsTold(cfg: Config, input: seq<Timed>, id: string)
    ensures Told(Run(cfg, input).0, Run(cfg, input).1, id)
  {
    if input != [] {
      var before, last := input[..|input| - 1], input[|input| - 1];
      var (s, log) := Run(cfg, before);
      RunIsTold(cfg, before, id);
      RunKeepsOneId(cfg, before);
      StepKeepsTold(cfg, s, log, last.now, last.event, id);
      hide Step, Wf, Told, OneIdEach;
    }
  }

  /** Whether a session stands depends on the log so far only. */
  lemma PrefixStands(log: seq<Entry>, k: nat, n: nat, id: string)
    requires n <= |log|
    ensures Standing(log[..n], k, n, id) <==> Standing(log, k, n, id)
    ensures UsedBetween(log[..n], k, n, id) <==> UsedBetween(log, k, n, id)
  {
    hide Opens, Drops, UsesUp;
    assert forall i :: 0 <= i < n ==> log[..n][i] == log[i];
  }

  /** The log repeats the input. */
  lemma LogIsInput(cfg: Config, input: seq<Timed>)
    ensures forall k :: 0 <= k < |input| ==> Run(cfg, input).1[k].event == input[k].event && Run(cfg, input).1[k].now == input[k].now
  {
    hide Step, Run, Wf;
    forall k | 0 <= k < |input|
      ensures Run(cfg, input).1[k].event == input[k].event && Run(cfg, input).1[k].now == input[k].now
    {
      RunContinues(cfg, input, k);
    }
  }

  /** What is stored under an identifier at position `j`, in terms of the whole log. */
  ghost predicate StoredAt(s: State, log: seq<Entry>, k: nat, j: nat, id: string)
    requires Wf(s)
  {
    && Standing(log, k, j, id) && id in s.sessions
    && OpenedAs(log, k, s.heap[s.sessions[id]]) && (s.heap[s.sessions[id]].consumed <==> UsedBetween(log, k, j, id))
  }

  lemma {:induction false} StoredExactly(cfg: Config, input: seq<Timed>, j: nat, id: string)
    requires j <= |input|
    ensures var s, log := Run(cfg, input[..j]).0, Run(cfg, input).1;
            && (forall k: nat :: Standing(log, k, j, id) ==> StoredAt(s, log, k, j, id))
            && (id in s.sessions ==> exists k: nat :: StoredAt(s, log, k, j, id))
  {
    var (s, log) := Run(cfg, input[..j]);
    var all := Run(cfg, input).1;
    RunContinues(cfg, input, j);
    RunIsTold(cfg, input[..j], id);
    hide Run, Wf, Standing, UsedBetween;
    if id in s.sessions {
      var k: nat :| HeldAs(s, log, k, id);
      StandingBounds(log, k, |log|, id);
      PrefixStands(all, k, j, id);
      assert log[k] == all[k];
      assert StoredAt(s, all, k, j, id);
    }
    forall k: nat | Standing(all, k, j, id)
      ensures StoredAt(s, all, k, j, id)
    {
      PrefixStands(all, k, j, id);
      if id in s.sessions {
        var k': nat :| HeldAs(s, log, k', id);
        StandsAlone(log, k', k, j, id);
      }
    }
  }

  // ----------------------------------------------------- requests and answers

  /** A request object carries the nonce and the format of the session that stands under its identifier, never anything
      else; a standing session always gives it out, and an unknown identifier is answered 404. */
  lemma {:induction false} RequestObjectsCarryTheNonce(cfg: Config, input: seq<Timed>, j: nat, id: string)
    requires j < |input| && input[j].event == GetRequest(id)
    ensures var log := Run(cfg, input).1;
            && (forall k: nat :: Standing(log, k, j, id) ==> log[j].response == RequestObject(log[k].event.newNonce, log[k].event.mdoc))
            && ((forall k: nat :: !Standing(log, k, j, id)) ==> log[j].response == Failed(404))
  {
    StoredExactly(cfg, input, j, id);
    RunContinues(cfg, input, j);
    hide Run, Standing, UsedBetween;
  }

  /** Requests are taken up to 10 000 sessions, under the names just minted. */
  lemma RequestAnsweredExactly(cfg: Config, input: seq<Timed>, j: nat, mdoc: bool, id: string, nonce: string, token: string)
    requires j < |input| && input[j].event == PostRequest(mdoc, id, nonce, token)
    ensures Run(cfg, input).1[j].response ==
            if |Run(cfg, input[..j]).0.sessions| >= 10_000 then Failed(429) else RequestCreated(id, token)
  {
    RunContinues(cfg, input, j);
    hide Run;
  }

  /** The issuer that a presentation names: the first trusted one for mdoc, which carries none, and otherwise the `iss` of
      the JWS, read before its signature is checked. */
  predicate NamesIssuer(cfg: Config, mdoc: bool, vpToken: string, issuer: string) {
    if mdoc then cfg.trusted != [] && issuer == cfg.trusted[0]
    else cfg.suite.peek(C.Parse(vpToken).jws).Some? && Get(cfg.suite.peek(C.Parse(vpToken).jws).value, "iss") == Some(Str(issuer))
  }

  predicate Unreadable(cfg: Config, mdoc: bool, vpToken: string) {
    !mdoc && cfg.suite.peek(C.Parse(vpToken).jws) == None
  }

  lemma NamedExactly(cfg: Config, mdoc: bool, vpToken: string)
    ensures var named := NamedIssuer(cfg, mdoc, vpToken);
            && (named == None <==> Unreadable(cfg, mdoc, vpToken))
            && forall issuer :: named == Some(Some(issuer)) <==> NamesIssuer(cfg, mdoc, vpToken, issuer)
  {
  }

  lemma PostAnswer(cfg: Config, s: State, now: int, q: nat, id: string, vpToken: string)
    requires Wf(s) && q !in s.flights
    ensures var (s', response) := Step(cfg, s, now, PostResponse(q, id, vpToken));
            && response ==
               (if id !in s.sessions then Failed(404)
                else
                  var p := s.heap[s.sessions[id]];
                  if now - p.createdAt > 300_000 || p.consumed || vpToken == "" then Failed(400)
                  else if NamedIssuer(cfg, p.mdoc, vpToken) == None then Failed(500) else Awaiting)
            && (response == Awaiting ==>
                  && q in s'.flights && s'.flights[q].session == s.sessions[id] && s'.flights[q].session in s'.heap
                  && s'.flights[q].stage == ResolvingTrust(vpToken, NamedIssuer(cfg, s.heap[s.sessions[id]].mdoc, vpToken).value))
  {
    hide NamedIssuer;
  }

  /** A post is answered by the session that stands under its identifier: taken up in the session's five minutes, once,
      when its token can be read. */
  lemma {:induction false} PostAnsweredExactly(cfg: Config, input: seq<Timed>, j: nat, q: nat, id: string, vpToken: string)
    requires j < |input| && input[j].event == PostResponse(q, id, vpToken) && q !in Run(cfg, input[..j]).0.flights
    ensures var log := Run(cfg, input).1;
            && ((forall k: nat :: !Standing(log, k, j, id)) ==> log[j].response == Failed(404))
            && (forall k: nat :: Standing(log, k, j, id) ==>
                  log[j].response ==
                  if log[j].now - log[k].now > 300_000 || UsedBetween(log, k, j, id) || vpToken == "" then Failed(400)
                  else if Unreadable(cfg, log[k].event.mdoc, vpToken) then Failed(500) else Awaiting)
  {
    StoredExactly(cfg, input, j, id);
    RunContinues(cfg, input, j);
    var s, log := Run(cfg, input[..j]).0, Run(cfg, input).1;
    PostAnswer(cfg, s, input[j].now, q, id, vpToken);
    if id in s.sessions { NamedExactly(cfg, s.heap[s.sessions[id]].mdoc, vpToken); }
    hide Run, Standing, UsedBetween, Step, NamedIssuer, Unreadable;
  }

  // ----------------------------------------------------------- handler stretches

  lemma EffectsServe(cfg: Config, s: State, now: int, event: Event, q: nat)
    requires Wf(s) && q in s.flights
    ensures var (e, response) := Decide(cfg, s, now, event);
            (e.Launch? || e.SetFlight? || e.EndFlight? || e.Finish?) && e.request == q ==> Served(Entry(now, event, response), q)
  {
    hide Check, WithDcql, WithStatus, L.ReadStatus, NamedIssuer, FindToken;
  }

  lemma UnservedStays(cfg: Config, s: State, now: int, event: Event, q: nat)
    requires Wf(s) && q in s.flights && !Served(Entry(now, event, Step(cfg, s, now, event).1), q)
    ensures var s' := Step(cfg, s, now, event).0;
            && Wf(s') && q in s'.flights && s'.flights[q] == s.flights[q]
            && SameSession(s.heap[s.flights[q].session], s'.heap[s.flights[q].session])
  {
    var e := Decide(cfg, s, now, event).0;
    EffectsServe(cfg, s, now, event, q);
    DecisionsAreGrounded(cfg, s, now, event);
    GroundedKeepsWf(s, e);
    HeapAndFlightsAfter(s, e);
    SessionsKeepTheirIdentity(s, e, s.flights[q].session);
    hide Decide, Perform, Served, Wf;
  }

  /** The handler is suspended at this stage, on a session with the names of the one opened at `k`. */
  ghost predicate Suspended(s: State, log: seq<Entry>, q: nat, k: nat, stage: Stage)
    requires Wf(s)
  {
    && q in s.flights && s.flights[q].stage == stage && k < |log| && log[k].event.PostRequest?
    && var p := s.heap[s.flights[q].session];
       p.nonce == log[k].event.newNonce && p.mdoc == log[k].event.mdoc && p.resultToken == log[k].event.newToken
  }

  lemma StepLeaves(cfg: Config, s: State, log: seq<Entry>, now: int, event: Event, q: nat, k: nat, stage: Stage)
    requires Wf(s) && Suspended(s, log, q, k, stage) && !Served(Entry(now, event, Step(cfg, s, now, event).1), q)
    ensures Wf(Step(cfg, s, now, event).0) && Suspended(Step(cfg, s, now, event).0, log, q, k, stage)
  {
    UnservedStays(cfg, s, now, event, q);
    hide Wf, Step, Served;
  }

  lemma UnservedBefore(log: seq<Entry>, q: nat, i: nat, j: nat)
    requires i + 1 < j <= |log| && ServedOnlyAt(log, q, i, j, {})
    ensures ServedOnlyAt(log, q, i, j - 1, {}) && !Served(log[j - 1], q)
  {
    hide Served;
  }

  lemma {:induction false} StaysSuspended(cfg: Config, input: seq<Timed>, q: nat, k: nat, stage: Stage, i: nat, j: nat)
    requires i < j <= |input| && ServedOnlyAt(Run(cfg, input).1, q, i, j, {})
    requires Suspended(Run(cfg, input[..i + 1]).0, Run(cfg, input).1, q, k, stage)
    ensures Suspended(Run(cfg, input[..j]).0, Run(cfg, input).1, q, k, stage)
    decreases j
  {
    hide *;
    if j > i + 1 {
      UnservedBefore(Run(cfg, input).1, q, i, j);
      StaysSuspended(cfg, input, q, k, stage, i, j - 1);
      RunContinues(cfg, input, j - 1);
      StepLeaves(cfg, Run(cfg, input[..j - 1]).0, Run(cfg, input).1, input[j - 1].now, input[j - 1].event, q, k, stage);
    }
  }

  /** The posts of a session: `q` took up what was posted at `p` to the session opened at `k`. */
  ghost predicate TakenUp(log: seq<Entry>, k: nat, p: nat, q: nat) {
    && p < |log| && log[p].event.PostResponse? && log[p].event.request == q && log[p].response == Awaiting
    && Standing(log, k, p, log[p].event.id)
  }

  ghost predicate KeyCame(log: seq<Entry>, k: nat, p: nat, t: nat, q: nat) {
    && TakenUp(log, k, p, q) && p < t < |log| && ServedOnlyAt(log, q, p, t, {})
    && log[t].event.TrustResolved? && log[t].event.request == q && log[t].event.key.Key? && log[t].response.VerifyingNonce?
  }

  /** The outcome of the check at position `v`. */
  ghost function CheckAt(cfg: Config, log: seq<Entry>, k: nat, p: nat, t: nat, v: nat, q: nat): Option<Checked>
    requires KeyCame(log, k, p, t, q) && v < |log|
  {
    Check(cfg, log[k].event.mdoc, log[p].event.vpToken, log[t].event.key.jwk, log[k].event.newNonce, log[v].now)
  }

  ghost predicate CheckPassed(cfg: Config, log: seq<Entry>, k: nat, p: nat, t: nat, v: nat, q: nat) {
    && KeyCame(log, k, p, t, q) && t < v < |log| && ServedOnlyAt(log, q, t, v, {})
    && log[v].event == PresentationVerified(q) && log[v].response == Awaiting
  }

  ghost predicate ListCame(cfg: Config, log: seq<Entry>, k: nat, p: nat, t: nat, v: nat, f: nat, q: nat) {
    && CheckPassed(cfg, log, k, p, t, v, q) && v < f < |log| && ServedOnlyAt(log, q, v, f, {})
    && log[f].event.StatusFetched? && log[f].event.request == q && log[f].response == Awaiting
  }

  lemma TrustAnswer(cfg: Config, s: State, log: seq<Entry>, now: int, q: nat, k: nat, token: string, named: Option<string>, key: KeyResult)
    requires Wf(s) && Suspended(s, log, q, k, ResolvingTrust(token, named))
    ensures var (s', response) := Step(cfg, s, now, TrustResolved(q, key));
            && response == (if named.None? || named.value !in cfg.trusted then Failed(403)
                            else match key case NoKey(status) => Failed(status) case Key(_) => VerifyingNonce(log[k].event.newNonce))
            && (response.VerifyingNonce? ==> Wf(s') && Suspended(s', log, q, k, Verifying(token, named.value, key.jwk)))
  {
    StepKeepsWf(cfg, s, now, TrustResolved(q, key));
  }

  /** What a verdict is, given the check and the status read, if any: it discloses what the check does; it lists the errors
      of the check, then a revocation, then the missing paths of a presentation that is good so far; and it is valid
      when it lists none. */
  ghost predicate IsVerdict(cfg: Config, mdoc: bool, checked: Verdict, bit: Option<nat>, v: Verdict) {
    var revoked, missing := bit == Some(1), Q.Missing(if mdoc then cfg.mdocPaths else cfg.sdJwtPaths, checked.disclosed);
    && v.disclosed == checked.disclosed
    && v.valid == (checked.valid && !revoked && missing == [])
    && v.errors == checked.errors + (if revoked then [CredentialRevoked] else [])
                                  + (if checked.valid && !revoked && missing != [] then [DcqlNotSatisfied(missing)] else [])
  }

  lemma VerdictsAre(cfg: Config, mdoc: bool, checked: Verdict, bit: nat)
    ensures IsVerdict(cfg, mdoc, checked, None, WithDcql(checked, Paths(cfg, mdoc)))
    ensures IsVerdict(cfg, mdoc, checked, Some(bit), WithDcql(WithStatus(checked, bit), Paths(cfg, mdoc)))
  {
    hide Q.Missing;
  }

  lemma VerifiedAnswer(cfg: Config, s: State, log: seq<Entry>, now: int, q: nat, k: nat, token: string, issuer: string, key: Json)
    requires Wf(s) && Suspended(s, log, q, k, Verifying(token, issuer, key))
    ensures var (s', response) := Step(cfg, s, now, PresentationVerified(q));
            match Check(cfg, log[k].event.mdoc, token, key, log[k].event.newNonce, now)
            case None => response == Failed(400)
            case Some(Checked(c, status)) =>
              if !c.valid || status.None? then response.Result? && IsVerdict(cfg, log[k].event.mdoc, c, None, response.verdict)
              else if status.value.uri.None? then response == Failed(400)
              else
                && response == Awaiting && Wf(s')
                && Suspended(s', log, q, k, FetchingStatus(issuer, key, c, status.value.uri.value, status.value.idx))
  {
    hide Check, WithDcql, WithStatus, Paths, IsVerdict;
    StepKeepsWf(cfg, s, now, PresentationVerified(q));
    hide Wf;
    var c := Check(cfg, log[k].event.mdoc, token, key, log[k].event.newNonce, now);
    if c.Some? { VerdictsAre(cfg, log[k].event.mdoc, c.value.verdict, 0); }
  }

  lemma FetchedAnswer(cfg: Config, s: State, log: seq<Entry>, now: int, q: nat, k: nat, issuer: string, key: Json, c: Verdict, uri: string, idx: int, text: Option<string>)
    requires Wf(s) && Suspended(s, log, q, k, FetchingStatus(issuer, key, c, uri, idx))
    ensures var (s', response) := Step(cfg, s, now, StatusFetched(q, text));
            if text.None? then response == Failed(400)
            else response == Awaiting && Wf(s') && Suspended(s', log, q, k, ReadingStatus(issuer, key, c, uri, idx, text.value))
  {
    StepKeepsWf(cfg, s, now, StatusFetched(q, text));
  }

  lemma ReadAnswer(cfg: Config, s: State, log: seq<Entry>, now: int, q: nat, k: nat, issuer: string, key: Json, c: Verdict, uri: string, idx: int, text: string)
    requires Wf(s) && Suspended(s, log, q, k, ReadingStatus(issuer, key, c, uri, idx, text))
    ensures var response := Step(cfg, s, now, StatusRead(q)).1;
            match L.ReadStatus(cfg.suite, cfg.lists, text, idx, key, issuer, uri, now / 1000)
            case StatusFailed(error) => response == Failed(if error.DecodeFailure? then 500 else 400)
            case Status(bit) => response.Result? && IsVerdict(cfg, log[k].event.mdoc, c, Some(bit), response.verdict)
  {
    var read := L.ReadStatus(cfg.suite, cfg.lists, text, idx, key, issuer, uri, now / 1000);
    if read.Status? { VerdictsAre(cfg, log[k].event.mdoc, c, read.bit); }
    hide L.ReadStatus, WithDcql, WithStatus, Paths, IsVerdict;
  }

  lemma {:induction false} TakenUpSuspends(cfg: Config, input: seq<Timed>, k: nat, p: nat, j: nat, q: nat)
    requires p < j <= |input| && TakenUp(Run(cfg, input).1, k, p, q) && ServedOnlyAt(Run(cfg, input).1, q, p, j, {})
    ensures var log := Run(cfg, input).1;
            var named := NamedIssuer(cfg, log[k].event.mdoc, log[p].event.vpToken);
            named.Some? && Suspended(Run(cfg, input[..j]).0, log, q, k, ResolvingTrust(log[p].event.vpToken, named.value))
  {
    var log := Run(cfg, input).1;
    var PostResponse(_, id, vpToken) := log[p].event;
    StoredExactly(cfg, input, p, id);
    RunContinues(cfg, input, p);
    var s := Run(cfg, input[..p]).0;
    hide Run, Step, Wf, NamedIssuer, ServedOnlyAt, Standing, UsedBetween;
    TakenFrom(cfg, s, input[p].now, q, id, vpToken);
    assert StoredAt(s, log, k, p, id);
    StandingBounds(log, k, p, id);
    StaysSuspended(cfg, input, q, k, ResolvingTrust(vpToken, NamedIssuer(cfg, log[k].event.mdoc, vpToken).value), p, j);
  }

  lemma TakenFrom(cfg: Config, s: State, now: int, q: nat, id: string, vpToken: string)
    requires Wf(s) && Step(cfg, s, now, PostResponse(q, id, vpToken)).1 == Awaiting
    ensures id in s.sessions
    ensures var (s', p) := (Step(cfg, s, now, PostResponse(q, id, vpToken)).0, s.heap[s.sessions[id]]);
            && NamedIssuer(cfg, p.mdoc, vpToken).Some? && Wf(s') && q in s'.flights
            && s'.flights[q].stage == ResolvingTrust(vpToken, NamedIssuer(cfg, p.mdoc, vpToken).value)
            && SameSession(p, s'.heap[s'.flights[q].session])
  {
    hide NamedIssuer;
    StepKeepsWf(cfg, s, now, PostResponse(q, id, vpToken));
  }

  /** A handler asks for the key of the issuer that the presentation names, and sends the nonce of its session, the one in
      its request object, to verification; an issuer that is not trusted ends it. */
  lemma {:induction false} TrustAnsweredExactly(cfg: Config, input: seq<Timed>, k: nat, p: nat, j: nat, q: nat, key: KeyResult)
    requires p < j < |input| && input[j].event == TrustResolved(q, key)
    requires TakenUp(Run(cfg, input).1, k, p, q) && ServedOnlyAt(Run(cfg, input).1, q, p, j, {})
    ensures var log := Run(cfg, input).1;
            log[j].response ==
            if !exists issuer :: NamesIssuer(cfg, log[k].event.mdoc, log[p].event.vpToken, issuer) && issuer in cfg.trusted then Failed(403)
            else match key case NoKey(status) => Failed(status) case Key(_) => VerifyingNonce(log[k].event.newNonce)
  {
    var log := Run(cfg, input).1;
    var mdoc, vpToken := log[k].event.mdoc, log[p].event.vpToken;
    TakenUpSuspends(cfg, input, k, p, j, q);
    RunContinues(cfg, input, j);
    NamedExactly(cfg, mdoc, vpToken);
    hide Run, Step, Wf, NamedIssuer, NamesIssuer, ServedOnlyAt, Standing, Suspended;
    var named := NamedIssuer(cfg, mdoc, vpToken).value;
    TrustAnswer(cfg, Run(cfg, input[..j]).0, log, input[j].now, q, k, vpToken, named, key);
    assert named.Some? ==> NamesIssuer(cfg, mdoc, vpToken, named.value);
  }

  /** The nonce of the request object is the one that what is posted for it is verified with. */
  lemma {:induction false} RequestedNonceIsVerified(cfg: Config, input: seq<Timed>, k: nat, g: nat, p: nat, t: nat, q: nat, id: string)
    requires g < |input| && input[g].event == GetRequest(id) && Standing(Run(cfg, input).1, k, g, id)
    requires KeyCame(Run(cfg, input).1, k, p, t, q) && input[p].event.PostResponse? && input[p].event.id == id
    ensures var log := Run(cfg, input).1;
            && log[g].response.RequestObject? && log[t].response == VerifyingNonce(log[g].response.nonce)
            && log[k].event.newId == id && log[g].response.nonce == log[k].event.newNonce
  {
    LogIsTheInput(cfg, input);
    RequestObjectsCarryTheNonce(cfg, input, g, id);
    TrustAnsweredExactly(cfg, input, k, p, t, q, Run(cfg, input).1[t].event.key);
    hide Run, NamesIssuer, ServedOnlyAt;
  }

  lemma {:induction false} KeySuspends(cfg: Config, input: seq<Timed>, k: nat, p: nat, t: nat, j: nat, q: nat)
    requires j <= |input| && KeyCame(Run(cfg, input).1, k, p, t, q) && t < j && ServedOnlyAt(Run(cfg, input).1, q, t, j, {})
    ensures var log := Run(cfg, input).1;
            exists issuer :: NamesIssuer(cfg, log[k].event.mdoc, log[p].event.vpToken, issuer) &&
                             Suspended(Run(cfg, input[..j]).0, log, q, k, Verifying(log[p].event.vpToken, issuer, log[t].event.key.jwk))
  {
    var log := Run(cfg, input).1;
    var mdoc, vpToken, key := log[k].event.mdoc, log[p].event.vpToken, log[t].event.key;
    TakenUpSuspends(cfg, input, k, p, t, q);
    RunContinues(cfg, input, t);
    NamedExactly(cfg, mdoc, vpToken);
    hide Run, Step, Wf, NamedIssuer, NamesIssuer, ServedOnlyAt, Standing, Suspended;
    var named := NamedIssuer(cfg, mdoc, vpToken).value;
    TrustAnswer(cfg, Run(cfg, input[..t]).0, log, input[t].now, q, k, vpToken, named, key);
    StaysSuspended(cfg, input, q, k, Verifying(vpToken, named.value, key.jwk), t, j);
    assert NamesIssuer(cfg, mdoc, vpToken, named.value);
  }

  /** The presentation is checked under the key that came, for this verifier and the nonce of its session. A check that
      throws ends the handler; a failed one, or one of a credential without a status, gives the verdict; and otherwise
      the handler goes on to the list that the credential refers to. */
  lemma {:induction false} CheckAnsweredExactly(cfg: Config, input: seq<Timed>, k: nat, p: nat, t: nat, j: nat, q: nat)
    requires t < j < |input| && input[j].event == PresentationVerified(q)
    requires KeyCame(Run(cfg, input).1, k, p, t, q) && ServedOnlyAt(Run(cfg, input).1, q, t, j, {})
    ensures var log := Run(cfg, input).1;
            match CheckAt(cfg, log, k, p, t, j, q)
            case None => log[j].response == Failed(400)
            case Some(Checked(c, status)) =>
              if !c.valid || status.None? then log[j].response.Result? && IsVerdict(cfg, log[k].event.mdoc, c, None, log[j].response.verdict)
              else log[j].response == if status.value.uri.None? then Failed(400) else Awaiting
  {
    var log := Run(cfg, input).1;
    KeySuspends(cfg, input, k, p, t, j, q);
    RunContinues(cfg, input, j);
    hide Run, Step, Wf, NamesIssuer, ServedOnlyAt, Standing, Suspended, Check, IsVerdict;
    var issuer :| NamesIssuer(cfg, log[k].event.mdoc, log[p].event.vpToken, issuer) &&
                  Suspended(Run(cfg, input[..j]).0, log, q, k, Verifying(log[p].event.vpToken, issuer, log[t].event.key.jwk));
    VerifiedAnswer(cfg, Run(cfg, input[..j]).0, log, input[j].now, q, k, log[p].event.vpToken, issuer, log[t].event.key.jwk);
  }

  /** The stage of a handler whose check has sent it on to a list. */
  ghost predicate Fetches(cfg: Config, s: State, log: seq<Entry>, k: nat, p: nat, t: nat, v: nat, q: nat, issuer: string)
    requires Wf(s) && KeyCame(log, k, p, t, q) && v < |log|
  {
    && NamesIssuer(cfg, log[k].event.mdoc, log[p].event.vpToken, issuer)
    && var c := CheckAt(cfg, log, k, p, t, v, q);
       && c.Some? && c.value.verdict.valid && c.value.status.Some? && c.value.status.value.uri.Some?
       && Suspended(s, log, q, k, FetchingStatus(issuer, log[t].event.key.jwk, c.value.verdict, c.value.status.value.uri.value, c.value.status.value.idx))
  }

  lemma {:induction false} CheckSuspends(cfg: Config, input: seq<Timed>, k: nat, p: nat, t: nat, v: nat, j: nat, q: nat)
    requires j <= |input| && CheckPassed(cfg, Run(cfg, input).1, k, p, t, v, q) && v < j && ServedOnlyAt(Run(cfg, input).1, q, v, j, {})
    ensures exists issuer :: Fetches(cfg, Run(cfg, input[..j]).0, Run(cfg, input).1, k, p, t, v, q, issuer)
  {
    var log := Run(cfg, input).1;
    KeySuspends(cfg, input, k, p, t, v, q);
    RunContinues(cfg, input, v);
    hide Run, Step, Wf, NamesIssuer, ServedOnlyAt, Standing, Suspended, Check, IsVerdict;
    var key := log[t].event.key.jwk;
    var issuer :| NamesIssuer(cfg, log[k].event.mdoc, log[p].event.vpToken, issuer) &&
                  Suspended(Run(cfg, input[..v]).0, log, q, k, Verifying(log[p].event.vpToken, issuer, key));
    VerifiedAnswer(cfg, Run(cfg, input[..v]).0, log, input[v].now, q, k, log[p].event.vpToken, issuer, key);
    var Checked(c, status) := CheckAt(cfg, log, k, p, t, v, q).value;
    StaysSuspended(cfg, input, q, k, FetchingStatus(issuer, key, c, status.value.uri.value, status.value.idx), v, j);
    assert Fetches(cfg, Run(cfg, input[..j]).0, log, k, p, t, v, q, issuer);
  }

  /** A list that cannot be fetched ends the handler. */
  lemma {:induction false} FetchAnsweredExactly(cfg: Config, input: seq<Timed>, k: nat, p: nat, t: nat, v: nat, j: nat, q: nat, text: Option<string>)
    requires v < j < |input| && input[j].event == StatusFetched(q, text)
    requires CheckPassed(cfg, Run(cfg, input).1, k, p, t, v, q) && ServedOnlyAt(Run(cfg, input).1, q, v, j, {})
    ensures Run(cfg, input).1[j].response == if text.None? then Failed(400) else Awaiting
  {
    var log := Run(cfg, input).1;
    CheckSuspends(cfg, input, k, p, t, v, j, q);
    RunContinues(cfg, input, j);
    hide Run, Step, Wf, NamesIssuer, ServedOnlyAt, Standing, Suspended, Check;
    var issuer :| Fetches(cfg, Run(cfg, input[..j]).0, log, k, p, t, v, q, issuer);
    var Checked(c, status) := CheckAt(cfg, log, k, p, t, v, q).value;
    FetchedAnswer(cfg, Run(cfg, input[..j]).0, log, input[j].now, q, k, issuer, log[t].event.key.jwk, c, status.value.uri.value, status.value.idx, text);
  }

  /** The status is read from the fetched list, at the index and for the list that the checked credential refers to, under
      the key that came, for the issuer that the presentation names; and with it the verdict is given. */
  lemma {:induction false} StatusAnsweredExactly(
    cfg: Config, input: seq<Timed>, k: nat, p: nat, t: nat, v: nat, f: nat, j: nat, q: nat)
    requires f < j < |input| && input[j].event == StatusRead(q)
    requires ListCame(cfg, Run(cfg, input).1, k, p, t, v, f, q) && ServedOnlyAt(Run(cfg, input).1, q, f, j, {})
    ensures var log := Run(cfg, input).1;
            var c := CheckAt(cfg, log, k, p, t, v, q);
            && c.Some? && c.value.status.Some? && c.value.status.value.uri.Some? && log[f].event.text.Some?
            && exists issuer :: NamesIssuer(cfg, log[k].event.mdoc, log[p].event.vpToken, issuer) &&
                 match L.ReadStatus(cfg.suite, cfg.lists, log[f].event.text.value, c.value.status.value.idx, log[t].event.key.jwk, issuer,
                                    c.value.status.value.uri.value, input[j].now / 1000)
                 case StatusFailed(error) => log[j].response == Failed(if error.DecodeFailure? then 500 else 400)
                 case Status(bit) => log[j].response.Result? && IsVerdict(cfg, log[k].event.mdoc, c.value.verdict, Some(bit), log[j].response.verdict)
  {
    var log := Run(cfg, input).1;
    CheckSuspends(cfg, input, k, p, t, v, f, q);
    RunContinues(cfg, input, f);
    RunContinues(cfg, input, j);
    hide Run, Step, Wf, NamesIssuer, ServedOnlyAt, Standing, Suspended, Check, IsVerdict, L.ReadStatus;
    var s := Run(cfg, input[..f]).0;
    var issuer :| Fetches(cfg, s, log, k, p, t, v, q, issuer);
    var Checked(c, status) := CheckAt(cfg, log, k, p, t, v, q).value;
    var key, uri, idx, text := log[t].event.key.jwk, status.value.uri.value, status.value.idx, log[f].event.text;
    FetchedAnswer(cfg, s, log, input[f].now, q, k, issuer, key, c, uri, idx, text);
    StaysSuspended(cfg, input, q, k, ReadingStatus(issuer, key, c, uri, idx, text.value), f, j);
    ReadAnswer(cfg, Run(cfg, input[..j]).0, log, input[j].now, q, k, issuer, key, c, uri, idx, text.value);
  }

  /** What the check says is what the verification of the presentation's format says: for SD-JWT VC with this verifier as
      audience and the nonce, at this second; for mdoc likewise, except that a response that cannot be opened throws. */
  lemma ChecksAreVerifications(cfg: Config, token: string, key: Json, nonce: string, now: int)
    ensures var c, r := Check(cfg, false, token, key, nonce, now), S.Verify(cfg.suite, token, key, cfg.verifierUrl, nonce, now / 1000);
            && c.Some? && c.value.verdict.disclosed == Obj(r.disclosedClaims) && c.value.verdict.valid == r.valid
            && |c.value.verdict.errors| == |r.errors| && (forall i :: 0 <= i < |r.errors| ==> c.value.verdict.errors[i] == SdJwtError(r.errors[i]))
            && (c.value.status.Some? <==> Truthy(Field(Get(r.issuerClaims, "status"), "status_list")))
            && (c.value.status.Some? ==>
                  var sl := Field(Get(r.issuerClaims, "status"), "status_list");
                  && (forall uri :: c.value.status.value.uri == Some(uri) <==> Field(sl, "uri") == Some(Str(uri)))
                  && (forall n :: Field(sl, "idx") == Some(Num(n)) ==> c.value.status.value.idx == n)
                  && ((forall n :: Field(sl, "idx") != Some(Num(n))) ==> c.value.status.value.idx == 0))
    ensures var c, r := Check(cfg, true, token, key, nonce, now), D.Verify(cfg.codecs, token, key, cfg.verifierUrl, nonce, now / 1000);
            && (c.Some? <==> r.Some?)
            && (c.Some? ==>
                  && c.value.verdict.disclosed == Q.AsObject(r.value.disclosedClaims) && c.value.verdict.valid == r.value.valid
                  && |c.value.verdict.errors| == |r.value.errors| && (forall i :: 0 <= i < |r.value.errors| ==> c.value.verdict.errors[i] == MdocError(r.value.errors[i]))
                  && (c.value.status.Some? <==> r.value.status.Some?) && (c.value.status.Some? ==> c.value.status.value.uri == r.value.status.value.uri)
                  && (c.value.status.Some? ==>
                        c.value.status.value.idx == if r.value.status.value.idx.Some? then r.value.status.value.idx.value else 0))
  {
    hide S.Verify, D.Verify;
  }

  // ------------------------------------------------------------------- polling

  /** The session's handler is done, and its verdict is stored. */
  ghost predicate Held(s: State, r: Ref, token: string, v: Verdict) {
    && r in s.heap && s.heap[r].resultToken == token && s.heap[r].result == Some(v)
    && s.heap[r].consumed && forall q :: q in s.flights ==> s.flights[q].session != r
  }

  lemma PurgedByItsToken(cfg: Config, s: State, now: int, event: Event)
    requires Wf(s)
    ensures var e := Decide(cfg, s, now, event).0;
            e.Purge? ==> event.GetResult? && e.ref in s.heap && s.heap[e.ref].resultToken == event.resultToken
  {
    if event.GetResult? { FoundToken(s, s.order, event.resultToken); }
    hide Check, WithDcql, WithStatus, L.ReadStatus, NamedIssuer, FindToken;
  }

  lemma StepKeepsHeld(cfg: Config, s: State, now: int, event: Event, r: Ref, token: string, v: Verdict)
    requires Wf(s) && Held(s, r, token, v) && event != GetResult(token)
    ensures Held(Step(cfg, s, now, event).0, r, token, v)
  {
    var e := Decide(cfg, s, now, event).0;
    DecisionsAreGrounded(cfg, s, now, event);
    PurgedByItsToken(cfg, s, now, event);
    assert r < s.nextRef;
    HeapAndFlightsAfter(s, e);
    hide Decide, Perform, Wf;
  }

  /** No poll with this token between these positions. */
  ghost predicate Unpolled(input: seq<Timed>, token: string, i: nat, j: nat) {
    forall m :: i < m < j && m < |input| ==> input[m].event != GetResult(token)
  }

  lemma {:induction false} StaysHeld(cfg: Config, input: seq<Timed>, i: nat, j: nat, r: Ref, token: string, v: Verdict)
    requires i < j <= |input| && Unpolled(input, token, i, j) && Held(Run(cfg, input[..i + 1]).0, r, token, v)
    ensures Held(Run(cfg, input[..j]).0, r, token, v)
    decreases j
  {
    hide Run, Wf, Step, Held;
    if j > i + 1 {
      StaysHeld(cfg, input, i, j - 1, r, token, v);
      RunContinues(cfg, input, j - 1);
      StepKeepsHeld(cfg, Run(cfg, input[..j - 1]).0, input[j - 1].now, input[j - 1].event, r, token, v);
    }
  }

  lemma FinishHolds(s: State, e: Effect)
    requires Wf(s) && Grounded(s, e) && Single(s) && e.Finish?
    ensures Held(Perform(s, e), e.ref, s.heap[e.ref].resultToken, e.verdict)
  {
    HeapAndFlightsAfter(s, e);
    hide Perform;
  }

  /** A verdict just sent is stored in the session that its trail opened. */
  ghost predicate ConcludesIn(cfg: Config, s': State, log: seq<Entry>, end: nat, r: Ref, q: nat, h: Trail)
    requires end < |log| && log[end].response.Result?
  {
    Explains(cfg, log, end, q, h, end) && Held(s', r, log[h.created].event.newToken, log[end].response.verdict)
  }

  lemma ConcludesFor(cfg: Config, s: State, log: seq<Entry>, now: int, event: Event)
    requires Wf(s) && StateSound(cfg, s, log) && Single(s) && Step(cfg, s, now, event).1.Result? && !event.GetResult?
    ensures exists r, q: nat, h ::
              ConcludesIn(cfg, Step(cfg, s, now, event).0, log + [Entry(now, event, Step(cfg, s, now, event).1)], |log|, r, q, h)
  {
    var (e, response) := Decide(cfg, s, now, event);
    var (x, s') := (Entry(now, event, response), Step(cfg, s, now, event).0);
    var log' := log + [x];
    ResultsComeFrom(cfg, s, now, event);
    EffectsOfEvents(cfg, s, now, event);
    DecisionsAreGrounded(cfg, s, now, event);
    FinishHolds(s, e);
    var q := event.request;
    var h :| Reaches(cfg, log, s.heap[s.flights[q].session], q, s.flights[q].stage, h);
    assert log'[|log|] == x;
    assert h.created < |log| && log'[h.created] == log[h.created] && log[h.created].event.newToken == s.heap[e.ref].resultToken;
    hide Reaches, Decide, Perform, StateSound, Concluded, SaysSo, Wf, Held;
    if event.PresentationVerified? {
      VerifiedAdvances(cfg, s, log, now, q, h);
      ConcludedSaysSo(cfg, log', q, h.(verified := |log|), |log|, e.verdict);
      assert ConcludesIn(cfg, s', log', |log|, e.ref, q, h.(verified := |log|));
    } else {
      ReadAdvances(cfg, s, log, now, q, h);
      ConcludedSaysSo(cfg, log', q, h.(read := |log|), |log|, e.verdict);
      assert ConcludesIn(cfg, s', log', |log|, e.ref, q, h.(read := |log|));
    }
  }

  ghost predicate ConcludesSomewhere(cfg: Config, s': State, log: seq<Entry>, end: nat)
    requires end < |log| && log[end].response.Result?
  {
    exists r, q: nat, h :: ConcludesIn(cfg, s', log, end, r, q, h)
  }

  lemma {:induction false} ConclusionIsHeld(cfg: Config, input: seq<Timed>, end: nat)
    requires end < |input| && Run(cfg, input).1[end].response.Result? && !input[end].event.GetResult?
    ensures ConcludesSomewhere(cfg, Run(cfg, input[..end + 1]).0, Run(cfg, input).1, end)
  {
    hide Run, Step, StateSound, Wf, Single, Explains, Held;
    RunContinues(cfg, input, end);
    RunContinues(cfg, input, end + 1);
    RunIsSound(cfg, input[..end]);
    RunIsSingle(cfg, input[..end]);
    var (s, log) := Run(cfg, input[..end]);
    var all := Run(cfg, input).1;
    ConcludesFor(cfg, s, log, input[end].now, input[end].event);
    assert log + [all[end]] == all[..end + 1];
    var r, q: nat, h :| ConcludesIn(cfg, Run(cfg, input[..end + 1]).0, log + [all[end]], |log|, r, q, h);
    ExplainsStill(cfg, log + [all[end]], all, end, q, h, end);
    CreatedBefore(cfg, log + [all[end]], end, q, h, end);
    assert ConcludesIn(cfg, Run(cfg, input[..end + 1]).0, all, end, r, q, h);
  }

  lemma CreatedBefore(cfg: Config, log: seq<Entry>, i: nat, q: nat, h: Trail, end: nat)
    requires i < |log| && log[i].response.Result? && Explains(cfg, log, i, q, h, end)
    ensures h.created < |log| && log[h.created].event.PostRequest? && log[h.created].response.RequestCreated?
  {
    hide SaysSo, CheckOf, IssuerNamed;
  }

  /** The verdict that a handler of the session opened at `k` reached at `end` has not been polled before `j`. */
  ghost predicate Unread(cfg: Config, input: seq<Timed>, k: nat, end: nat, j: nat, token: string, v: Verdict) {
    end < j && Unpolled(input, token, end, j) && exists q: nat, h: Trail :: h.created == k && Concluded(cfg, Run(cfg, input).1, q, h, end, v)
  }

  lemma PollFinds(cfg: Config, s: State, now: int, token: string, id: string)
    requires Wf(s) && id in s.sessions && s.heap[s.sessions[id]].resultToken == token
    requires forall r :: r in s.heap && s.heap[r].resultToken == token ==> r == s.sessions[id]
    ensures Step(cfg, s, now, GetResult(token)).1 ==
            match s.heap[s.sessions[id]].result case None => Pending case Some(v) => Result(v)
  {
    FoundToken(s, s.order, token);
    hide FindToken;
  }

  lemma PollFindsNothing(cfg: Config, s: State, now: int, token: string)
    requires Wf(s) && forall id :: id in s.sessions ==> s.heap[s.sessions[id]].resultToken != token
    ensures Step(cfg, s, now, GetResult(token)).1 == Failed(404)
  {
    FoundToken(s, s.order, token);
    hide FindToken;
  }

  /** A poll of the session opened at `k` is answered from its stored record, or 404 once that does not stand. */
  lemma {:induction false} PollReads(cfg: Config, input: seq<Timed>, k: nat, j: nat, token: string)
    requires MintedOnce(input) && k < j < |input| && input[j].event == GetResult(token)
    requires input[k].event.PostRequest? && input[k].event.newToken == token
    ensures var s, log, id := Run(cfg, input[..j]).0, Run(cfg, input).1, input[k].event.newId;
            if !Standing(log, k, j, id) then log[j].response == Failed(404)
            else
              && id in s.sessions && s.heap[s.sessions[id]].resultToken == token
              && (forall r :: r in s.heap && s.heap[r].resultToken == token ==> r == s.sessions[id])
              && log[j].response == match s.heap[s.sessions[id]].result case None => Pending case Some(v) => Result(v)
  {
    var s, log, id := Run(cfg, input[..j]).0, Run(cfg, input).1, input[k].event.newId;
    RunContinues(cfg, input, j);
    LogIsTheInput(cfg, input);
    StoredExactly(cfg, input, j, id);
    RunMints(cfg, input[..j]) by {
      assert forall i :: 0 <= i < j ==> input[..j][i] == input[i];
    }
    hide Run, Step, UsedBetween;
    if Standing(log, k, j, id) {
      assert StoredAt(s, log, k, j, id);
      hide Standing;
      PollFinds(cfg, s, input[j].now, token, id);
    } else {
      forall id' | id' in s.sessions
        ensures s.heap[s.sessions[id']].resultToken != token
      {
        StoredExactly(cfg, input, j, id');
        var k': nat :| StoredAt(s, log, k', j, id');
        StandingBounds(log, k', j, id');
        assert Opens(log[k'], id');
        assert k' != k ==> input[k'].event.newToken != input[k].event.newToken;
      }
      hide Standing;
      PollFindsNothing(cfg, s, input[j].now, token);
    }
  }

  lemma {:induction false} UnreadIsRead(cfg: Config, input: seq<Timed>, k: nat, end: nat, j: nat, token: string, v: Verdict)
    requires MintedOnce(input) && k < j < |input| && input[j].event == GetResult(token)
    requires input[k].event.PostRequest? && input[k].event.newToken == token && Standing(Run(cfg, input).1, k, j, input[k].event.newId)
    requires Unread(cfg, input, k, end, j, token, v)
    ensures Run(cfg, input).1[j].response == Result(v)
  {
    var log := Run(cfg, input).1;
    LogIsTheInput(cfg, input);
    PollReads(cfg, input, k, j, token);
    hide Run, Standing, Held, Wf;
    var q: nat, h: Trail :| h.created == k && Concluded(cfg, log, q, h, end, v);
    ConcludedSaysSo(cfg, log, q, h, end, v);
    EndIsNoPoll(cfg, log, q, h, end, v);
    ConclusionIsHeld(cfg, input, end);
    var r, q': nat, h' :| ConcludesIn(cfg, Run(cfg, input[..end + 1]).0, log, end, r, q', h');
    assert Explains(cfg, log, end, q, h, end);
    hide Explains, Concluded;
    TrailIsUnique(cfg, input, end, q, h, end, q', h', end);
    StaysHeld(cfg, input, end, j, r, token, v);
    assert Held(Run(cfg, input[..j]).0, r, token, v);
    HeldIs(Run(cfg, input[..j]).0, r, token, v);
  }

  lemma HeldIs(s: State, r: Ref, token: string, v: Verdict)
    requires Held(s, r, token, v)
    ensures r in s.heap && s.heap[r].resultToken == token && s.heap[r].result == Some(v)
  {
  }

  lemma EndIsNoPoll(cfg: Config, log: seq<Entry>, q: nat, h: Trail, end: nat, v: Verdict)
    requires Concluded(cfg, log, q, h, end, v)
    ensures end < |log| && log[end].response == Result(v) && !log[end].event.GetResult?
  {
    hide CheckOf, ReadOf, WithDcql, WithStatus, Paths, IssuerNamed;
  }

  /** The first poll of this token after a position. */
  function FirstPoll(input: seq<Timed>, token: string, from: nat, j: nat): (m: nat)
    requires from < j < |input| && input[j].event == GetResult(token)
    ensures from < m <= j && input[m].event == GetResult(token) && Unpolled(input, token, from, m)
    decreases j - from
  {
    if input[from + 1].event == GetResult(token) then from + 1 else FirstPoll(input, token, from + 1, j)
  }

  lemma StandsEarlier(log: seq<Entry>, k: nat, m: nat, j: nat, id: string)
    requires Standing(log, k, j, id) && k < m <= j
    ensures Standing(log, k, m, id)
  {
    hide Opens, Drops;
  }

  /** A poll reads the verdict that a handler reached in the session of that token, if the session still stands and no
      poll with the token has come since; it finds a session that stands pending otherwise, before any verdict and after the
      first poll that read it; and it is answered 404 once the session is gone. */
  lemma {:induction false} PollAnsweredExactly(cfg: Config, input: seq<Timed>, k: nat, j: nat, token: string)
    requires MintedOnce(input) && k < j < |input| && input[j].event == GetResult(token)
    requires input[k].event.PostRequest? && input[k].event.newToken == token
    ensures var response := Run(cfg, input).1[j].response;
            if !Standing(Run(cfg, input).1, k, j, input[k].event.newId) then response == Failed(404)
            else if exists end: nat, v :: Unread(cfg, input, k, end, j, token, v)
            then response.Result? && exists end: nat :: Unread(cfg, input, k, end, j, token, response.verdict)
            else response == Pending
  {
    var log, id := Run(cfg, input).1, input[k].event.newId;
    PollReads(cfg, input, k, j, token);
    hide Run, Standing, Unread, Wf;
    if Standing(log, k, j, id) {
      if log[j].response.Result? { ResultWasUnread(cfg, input, k, j, token); }
      if end: nat, v :| Unread(cfg, input, k, end, j, token, v) {
        UnreadIsRead(cfg, input, k, end, j, token, v);
      }
    }
  }

  lemma TokenNames(input: seq<Timed>, a: nat, b: nat, token: string)
    requires MintedOnce(input) && a < |input| && b < |input| && input[a].event.PostRequest? && input[b].event.PostRequest?
    requires input[a].event.newToken == token && input[b].event.newToken == token
    ensures a == b
  {
  }

  lemma PolledTrail(cfg: Config, log: seq<Entry>, i: nat, q: nat, h: Trail, end: nat)
    requires i < |log| && log[i].response.Result? && log[i].event.GetResult? && Explains(cfg, log, i, q, h, end)
    ensures Concluded(cfg, log, q, h, end, log[i].response.verdict) && end < i
    ensures h.created < |log| && log[h.created].event.PostRequest? && log[h.created].event.newToken == log[i].event.resultToken
  {
    CreatedBefore(cfg, log, i, q, h, end);
    hide SaysSo, Concluded;
  }

  /** The trail behind a polled verdict began with the session of the token. */
  lemma {:induction false} PolledFromItsSession(cfg: Config, input: seq<Timed>, k: nat, j: nat, token: string, q: nat, h: Trail, end: nat)
    requires MintedOnce(input) && k < j < |input| && input[j].event == GetResult(token)
    requires input[k].event.PostRequest? && input[k].event.newToken == token
    requires Run(cfg, input).1[j].response.Result? && Explains(cfg, Run(cfg, input).1, j, q, h, end)
    ensures h.created == k < end < j && Concluded(cfg, Run(cfg, input).1, q, h, end, Run(cfg, input).1[j].response.verdict)
  {
    hide *;
    var log := Run(cfg, input).1;
    LogIsTheInput(cfg, input);
    PolledTrail(cfg, log, j, q, h, end);
    CreatedEarlier(cfg, log, q, h, end, log[j].response.verdict);
    assert input[h.created].event == log[h.created].event;
    TokenNames(input, h.created, k, token);
  }

  lemma {:induction false} FirstPollReads(cfg: Config, input: seq<Timed>, k: nat, j: nat, token: string, q: nat, h: Trail, end: nat)
    requires MintedOnce(input) && k < j < |input| && input[j].event == GetResult(token)
    requires input[k].event.PostRequest? && input[k].event.newToken == token && Standing(Run(cfg, input).1, k, j, input[k].event.newId)
    requires Run(cfg, input).1[j].response.Result? && h.created == k < end < j
    requires Concluded(cfg, Run(cfg, input).1, q, h, end, Run(cfg, input).1[j].response.verdict)
    ensures Unread(cfg, input, k, end, j, token, Run(cfg, input).1[j].response.verdict)
  {
    hide *;
    var v := Run(cfg, input).1[j].response.verdict;
    var m := FirstPoll(input, token, end, j);
    StandsEarlier(Run(cfg, input).1, k, m, j, input[k].event.newId);
    MakeUnread(cfg, input, q, h, end, m, token, v);
    UnreadIsRead(cfg, input, k, end, m, token, v);
    if m < j { ResultReadAtMostOnce(cfg, input, m, j, token); }
  }

  lemma {:induction false} ResultWasUnread(cfg: Config, input: seq<Timed>, k: nat, j: nat, token: string)
    requires MintedOnce(input) && k < j < |input| && input[j].event == GetResult(token)
    requires input[k].event.PostRequest? && input[k].event.newToken == token && Standing(Run(cfg, input).1, k, j, input[k].event.newId)
    requires Run(cfg, input).1[j].response.Result?
    ensures exists end: nat :: Unread(cfg, input, k, end, j, token, Run(cfg, input).1[j].response.verdict)
  {
    hide *;
    ResultsAreSound(cfg, input, j);
    var q: nat, h, end: nat :| Explains(cfg, Run(cfg, input).1, j, q, h, end);
    PolledFromItsSession(cfg, input, k, j, token, q, h, end);
    FirstPollReads(cfg, input, k, j, token, q, h, end);
  }

  lemma MakeUnread(cfg: Config, input: seq<Timed>, q: nat, h: Trail, end: nat, j: nat, token: string, v: Verdict)
    requires end < j && Unpolled(input, token, end, j) && Concluded(cfg, Run(cfg, input).1, q, h, end, v)
    ensures Unread(cfg, input, h.created, end, j, token, v)
  {
    hide Run, Concluded;
  }

  lemma CreatedEarlier(cfg: Config, log: seq<Entry>, q: nat, h: Trail, end: nat, v: Verdict)
    requires Concluded(cfg, log, q, h, end, v)
    ensures h.created < end < |log|
  {
    hide CheckOf, ReadOf, WithDcql, WithStatus, Paths, IssuerNamed;
  }

  /** A token that no request was given is answered 404. */
  lemma {:induction false} UnknownTokenIsRefused(cfg: Config, input: seq<Timed>, j: nat, token: string)
    requires j < |input| && input[j].event == GetResult(token)
    requires forall k :: 0 <= k < j && input[k].event.PostRequest? ==> input[k].event.newToken != token
    ensures Run(cfg, input).1[j].response == Failed(404)
  {
    var s, log := Run(cfg, input[..j]).0, Run(cfg, input).1;
    RunContinues(cfg, input, j);
    LogIsTheInput(cfg, input);
    hide Run, Step, UsedBetween;
    forall id | id in s.sessions
      ensures s.heap[s.sessions[id]].resultToken != token
    {
      StoredExactly(cfg, input, j, id);
      var k: nat :| StoredAt(s, log, k, j, id);
      assert Opens(log[k], id);
    }
    hide Standing;
    PollFindsNothing(cfg, s, input[j].now, token);
  }
}
