/** The verifier as the program runs it: a map of session objects whose flag and result are set in place. Every
    handler stretch refines one step of the state machine; identifiers and the outcome of each awaited fetch are
    parameters. */
module VerifierServer {
  import opened Basics
  import M = VerifierModel
  import L = StatusLists
  import Q = Dcql

  class Session {
    const nonce: string
    const mdoc: bool
    const createdAt: int
    const resultToken: string
    var consumed: bool
    var result: Option<M.Verdict>
    ghost const ref: M.Ref

    constructor (nonce: string, mdoc: bool, createdAt: int, resultToken: string, ghost ref: M.Ref)
      ensures this.ref == ref && View() == M.Session(nonce, mdoc, createdAt, false, resultToken, None)
    {
      this.nonce, this.mdoc, this.createdAt, this.resultToken, this.ref := nonce, mdoc, createdAt, resultToken, ref;
      consumed, result := false, None;
    }

    ghost function View(): M.Session
      reads this
    {
      M.Session(nonce, mdoc, createdAt, consumed, resultToken, result)
    }
  }

  /** A suspended handler with the session object and the local variables it still needs. */
  datatype Handler = Handler(session: Session, stage: M.Stage)

  ghost function HeapView(heap: seq<Session>): map<M.Ref, M.Session>
    reads heap
  {
    map r | 0 <= r < |heap| :: heap[r].View()
  }

  ghost function RefsView(store: map<string, Session>): map<string, M.Ref> {
    map k | k in store :: store[k].ref
  }

  ghost function FlightsView(handlers: map<nat, Handler>): map<nat, M.Flight> {
    map q | q in handlers :: M.Flight(handlers[q].session.ref, handlers[q].stage)
  }

  ghost predicate Known(heap: seq<Session>, p: Session) {
    p.ref < |heap| && heap[p.ref] == p
  }

  ghost predicate Holds(heap: seq<Session>, sessions: map<string, Session>, order: seq<string>, handlers: map<nat, Handler>) {
    && (forall r :: 0 <= r < |heap| ==> heap[r].ref == r)
    && (forall k :: k in sessions ==> Known(heap, sessions[k]))
    && (forall k :: k in order <==> k in sessions)
    && (forall q :: q in handlers ==> Known(heap, handlers[q].session))
  }

  ghost function StateOf(heap: map<M.Ref, M.Session>, n: nat, sessions: map<string, Session>, order: seq<string>, handlers: map<nat, Handler>): M.State {
    M.State(heap, n, RefsView(sessions), order, FlightsView(handlers))
  }

  class Verifier {
    const cfg: M.Config
    var sessions: map<string, Session>
    var order: seq<string>
    var handlers: map<nat, Handler>
    ghost var heap: seq<Session>

    ghost predicate Valid()
      reads this
    {
      Holds(heap, sessions, order, handlers)
    }

    /** The state of the model that the fields represent. */
    ghost function Abs(): (s: M.State)
      requires Valid()
      reads this, heap
      ensures M.Wf(s)
    {
      StateOf(HeapView(heap), |heap|, sessions, order, handlers)
    }

    constructor (cfg: M.Config)
      ensures Valid() && Abs() == M.INIT && this.cfg == cfg
    {
      this.cfg := cfg;
      sessions, order, handlers, heap := map[], [], map[], [];
    }

    /** POST /presentation/request */
    method PostRequest(now: int, mdoc: bool, newId: string, newNonce: string, newToken: string) returns (response: M.Response)
      requires Valid()
      modifies this
      ensures Valid() && (Abs(), response) == M.Step(cfg, old(Abs()), now, M.PostRequest(mdoc, newId, newNonce, newToken))
    {
      hide M.Wf, M.Perform, Holds, StateOf, HeapView, Known;
      SizeOf(this);
      if |sessions| >= M.MAX_MAP_SIZE {
        Untouched(this, 0);
        return M.Failed(429);
      }
      var session := new Session(newNonce, mdoc, now, newToken, |heap|);
      Added(this, newId, session, session.View());
      heap := heap + [session];
      order := if newId in sessions then order else order + [newId];
      sessions := sessions[newId := session];
      response := M.RequestCreated(newId, newToken);
    }

    /** GET /presentation/request/:id */
    method GetRequest(now: int, id: string) returns (response: M.Response)
      requires Valid()
      ensures M.Step(cfg, Abs(), now, M.GetRequest(id)) == (Abs(), response)
    {
      hide M.Wf, M.Perform, Holds, StateOf, HeapView, Known;
      Untouched(this, 0);
      FindSession(this, id);
      if id !in sessions {
        return M.Failed(404);
      }
      response := M.RequestObject(sessions[id].nonce, sessions[id].mdoc);
    }

    /** POST /presentation/response, up to the resolution of the issuer's key. */
    method PostResponse(now: int, request: nat, id: string, vpToken: string) returns (response: M.Response)
      requires Valid()
      modifies this, heap
      ensures Valid() && (Abs(), response) == M.Step(cfg, old(Abs()), now, M.PostResponse(request, id, vpToken))
    {
      hide M.Wf, M.Perform, Holds, StateOf, HeapView, Known, M.NamedIssuer;
      Untouched(this, request);
      FindSession(this, id);
      Dropped(this, id);
      if request in handlers {
        return M.NoSuchHandler;
      }
      if id !in sessions {
        return M.Failed(404);
      }
      var session := sessions[id];
      if now - session.createdAt > M.SESSION_TTL_MS {
        sessions := sessions - {id};
        order := M.Without(order, id);
        return M.Failed(400);
      }
      if session.consumed || vpToken == "" {
        return M.Failed(400);
      }
      KnownIsIn(heap, session);
      response := Consume(request, session, vpToken);
    }

    method Consume(request: nat, session: Session, vpToken: string) returns (response: M.Response)
      requires Valid() && Known(heap, session)
      modifies this, session
      ensures Valid()
      ensures match M.NamedIssuer(cfg, session.mdoc, vpToken)
              case None => Abs() == M.Perform(old(Abs()), M.Consume(session.ref)) && response == M.Failed(500)
              case Some(issuer) =>
                && response == M.Awaiting
                && Abs() == M.Perform(old(Abs()), M.Launch(session.ref, request, M.Flight(session.ref, M.ResolvingTrust(vpToken, issuer))))
    {
      hide M.Wf, M.Perform, Holds, StateOf, HeapView, Known, M.NamedIssuer;
      ghost var before := HeapView(heap);
      var issuer := M.NamedIssuer(cfg, session.mdoc, vpToken);
      Consumed(this, session, request, M.ResolvingTrust(vpToken, if issuer.Some? then issuer.value else None));
      session.consumed := true;
      HeapSet(heap, session, before);
      if issuer.None? {
        response := M.Failed(500);
      } else {
        handlers := handlers[request := Handler(session, M.ResolvingTrust(vpToken, issuer.value))];
        response := M.Awaiting;
      }
    }

    /** The issuer's key was resolved, or could not be. */
    method TrustResolved(now: int, request: nat, key: M.KeyResult) returns (response: M.Response)
      requires Valid()
      modifies this
      ensures Valid() && (Abs(), response) == M.Step(cfg, old(Abs()), now, M.TrustResolved(request, key))
    {
      hide M.Wf, M.Perform, Holds, StateOf, HeapView, Known;
      Untouched(this, request);
      Ended(this, request);
      if request !in handlers || !handlers[request].stage.ResolvingTrust? {
        return M.NoSuchHandler;
      }
      var h := handlers[request];
      if h.stage.named.None? || h.stage.named.value !in cfg.trusted {
        handlers := handlers - {request};
        response := M.Failed(403);
      } else if key.NoKey? {
        handlers := handlers - {request};
        response := M.Failed(key.status);
      } else {
        var next := M.Verifying(h.stage.token, h.stage.named.value, key.jwk);
        Staged(this, request, h.session, next);
        handlers := handlers[request := Handler(h.session, next)];
        response := M.VerifyingNonce(h.session.nonce);
      }
    }

    /** Check the presentation; then fetch the status list, or go straight to the query. */
    method PresentationVerified(now: int, request: nat) returns (response: M.Response)
      requires Valid()
      modifies this, heap
      ensures Valid() && (Abs(), response) == M.Step(cfg, old(Abs()), now, M.PresentationVerified(request))
    {
      hide M.Wf, M.Perform, Holds, StateOf, HeapView, Known, M.Check, M.WithDcql;
      Untouched(this, request);
      Ended(this, request);
      if request !in handlers || !handlers[request].stage.Verifying? {
        return M.NoSuchHandler;
      }
      var h := handlers[request];
      var checked := M.Check(cfg, h.session.mdoc, h.stage.token, h.stage.key, h.session.nonce, now);
      if checked.None? {
        handlers := handlers - {request};
        return M.Failed(400);
      }
      var verdict, status := checked.value.verdict, checked.value.status;
      if !verdict.valid || status.None? {
        KnownIsIn(heap, h.session);
        response := Conclude(request, h.session, verdict);
      } else if status.value.uri.None? {
        handlers := handlers - {request};
        response := M.Failed(400);
      } else {
        var next := M.FetchingStatus(h.stage.issuer, h.stage.key, verdict, status.value.uri.value, status.value.idx);
        Staged(this, request, h.session, next);
        handlers := handlers[request := Handler(h.session, next)];
        response := M.Awaiting;
      }
    }

    /** The end of the handler: check the query, keep the verdict, send it. */
    method Conclude(request: nat, session: Session, v: M.Verdict) returns (response: M.Response)
      requires Valid() && Known(heap, session)
      modifies this, session
      ensures Valid()
      ensures var verdict := M.WithDcql(v, M.Paths(cfg, session.mdoc));
              response == M.Result(verdict) && Abs() == M.Perform(old(Abs()), M.Finish(request, session.ref, verdict))
    {
      hide M.Wf, M.Perform, Holds, StateOf, HeapView, Known;
      var verdict := v;
      if verdict.valid {
        var missing := Q.CheckDcqlSatisfied(M.Paths(cfg, session.mdoc), verdict.disclosed);
        if missing != [] {
          verdict := M.Verdict(false, v.disclosed, v.errors + [M.DcqlNotSatisfied(missing)]);
        }
      }
      hide Q.Missing, M.Paths;
      ghost var before := HeapView(heap);
      Finished(this, request, session, verdict);
      session.result := Some(verdict);
      HeapSet(heap, session, before);
      handlers := handlers - {request};
      response := M.Result(verdict);
    }

    /** The status list token arrived, or fetching it failed. */
    method StatusFetched(now: int, request: nat, text: Option<string>) returns (response: M.Response)
      requires Valid()
      modifies this
      ensures Valid() && (Abs(), response) == M.Step(cfg, old(Abs()), now, M.StatusFetched(request, text))
    {
      hide M.Wf, M.Perform, Holds, StateOf, HeapView, Known;
      Untouched(this, request);
      Ended(this, request);
      if request !in handlers || !handlers[request].stage.FetchingStatus? {
        return M.NoSuchHandler;
      }
      var h := handlers[request];
      if text.None? {
        handlers := handlers - {request};
        return M.Failed(400);
      }
      var f := h.stage;
      var next := M.ReadingStatus(f.issuer, f.key, f.verdict, f.uri, f.idx, text.value);
      Staged(this, request, h.session, next);
      handlers := handlers[request := Handler(h.session, next)];
      response := M.Awaiting;
    }

    /** The status was read from the list token. */
    method StatusRead(now: int, request: nat) returns (response: M.Response)
      requires Valid()
      modifies this, heap
      ensures Valid() && (Abs(), response) == M.Step(cfg, old(Abs()), now, M.StatusRead(request))
    {
      hide M.Wf, M.Perform, Holds, StateOf, HeapView, Known, L.ReadStatus, M.WithDcql;
      Untouched(this, request);
      Ended(this, request);
      if request !in handlers || !handlers[request].stage.ReadingStatus? {
        return M.NoSuchHandler;
      }
      var h := handlers[request];
      var f := h.stage;
      var status := L.ReadStatus(cfg.suite, cfg.lists, f.listToken, f.idx, f.key, f.issuer, f.uri, now / 1000);
      if status.StatusFailed? {
        handlers := handlers - {request};
        return M.Failed(if status.error.DecodeFailure? then 500 else 400);
      }
      var verdict := f.verdict;
      if status.bit == L.STATUS_INVALID {
        verdict := M.Verdict(false, verdict.disclosed, verdict.errors + [M.CredentialRevoked]);
      }
      KnownIsIn(heap, h.session);
      response := Conclude(request, h.session, verdict);
    }

    /** GET /presentation/result/:resultToken */
    method GetResult(now: int, resultToken: string) returns (response: M.Response)
      requires Valid()
      modifies heap
      ensures Valid() && (Abs(), response) == M.Step(cfg, old(Abs()), now, M.GetResult(resultToken))
    {
      hide M.Wf, M.Perform, Holds, StateOf, HeapView, Known;
      Untouched(this, 0);
      var session := FirstWith(resultToken);
      if session == null {
        return M.Failed(404);
      }
      ghost var before := HeapView(heap);
      KnownIsIn(heap, session);
      Purged(this, session);
      response := match session.result case None => M.Pending case Some(v) => M.Result(v);
      session.result := None;
      HeapSet(heap, session, before);
    }

    /** The first session with this result token, in iteration order. */
    method FirstWith(resultToken: string) returns (session: Session?)
      requires Valid()
      ensures match M.FindToken(Abs(), order, resultToken)
              case None => session == null
              case Some(r) => session != null && session.ref == r && Known(heap, session) && r in Abs().heap && Abs().heap[r] == session.View()
    {
      hide M.Wf, Holds, StateOf, HeapView, Known;
      Untouched(this, 0);
      var i := 0;
      while i < |order|
        invariant 0 <= i <= |order| && M.FindToken(Abs(), order, resultToken) == M.FindToken(Abs(), order[i..], resultToken)
      {
        FindSession(this, order[i]);
        OrderHolds(this, order[i]);
        var candidate := sessions[order[i]];
        if candidate.resultToken == resultToken {
          return candidate;
        }
        i := i + 1;
      }
      session := null;
    }

    /** `sweepVerifier`: one pass over the sessions, deleting what has expired. */
    method Sweep(now: int)
      requires Valid()
      modifies this
      ensures Valid() && M.Step(cfg, old(Abs()), now, M.Sweep) == (Abs(), M.Swept)
    {
      hide M.Wf, M.Perform, Holds, StateOf, HeapView, Known, LiveSessions;
      Swept(this, now);
      SweepSessions(now);
      order := M.LiveOnly(order, sessions.Keys);
    }

    method SweepSessions(now: int)
      modifies this`sessions
      ensures sessions == LiveSessions(old(sessions), now)
    {
      var todo := sessions.Keys;
      while todo != {}
        invariant todo <= old(sessions).Keys
        invariant sessions == map k | k in old(sessions) && (k in todo || now - old(sessions)[k].createdAt <= M.SESSION_TTL_MS) :: old(sessions)[k]
      {
        var k :| k in todo;
        if now - sessions[k].createdAt > M.SESSION_TTL_MS {
          sessions := sessions - {k};
        }
        todo := todo - {k};
      }
    }
  }

  // ------------------------------------------- what the fields represent

  ghost function LiveSessions(store: map<string, Session>, now: int): map<string, Session> {
    map k | k in store && now - store[k].createdAt <= M.SESSION_TTL_MS :: store[k]
  }

  lemma SizeOf(v: Verifier)
    requires v.Valid()
    ensures |v.Abs().sessions| == |v.sessions|
  {
    assert RefsView(v.sessions).Keys == v.sessions.Keys;
    assert |v.sessions.Keys| == |v.sessions| && |RefsView(v.sessions).Keys| == |RefsView(v.sessions)|;
  }

  lemma KnownIsIn(heap: seq<Session>, p: Session)
    requires Known(heap, p)
    ensures p in heap
  {
  }

  lemma FindRecord(v: Verifier, p: Session)
    requires v.Valid() && Known(v.heap, p)
    ensures p.ref in v.Abs().heap && v.Abs().heap[p.ref] == p.View()
  {
  }

  lemma FindSession(v: Verifier, id: string)
    requires v.Valid()
    ensures id in v.sessions <==> id in v.Abs().sessions
    ensures id in v.sessions ==>
              var p := v.sessions[id];
              Known(v.heap, p) && v.Abs().sessions[id] == p.ref && p.ref in v.Abs().heap && v.Abs().heap[p.ref] == p.View()
  {
    if id in v.sessions { FindRecord(v, v.sessions[id]); }
    hide Known, HeapView;
  }

  lemma OrderHolds(v: Verifier, id: string)
    requires v.Valid()
    ensures id in v.order <==> id in v.sessions
  {
  }

  /** An idle step, the order of the sessions, and the handler of a request. */
  lemma Untouched(v: Verifier, q: nat)
    requires v.Valid()
    ensures M.Perform(v.Abs(), M.Nothing) == v.Abs() && v.Abs().order == v.order
    ensures forall k :: k in v.order ==> k in v.Abs().sessions
    ensures q in v.handlers <==> q in v.Abs().flights
    ensures q in v.handlers ==>
              var p := v.handlers[q].session;
              Known(v.heap, p) && v.Abs().flights[q] == M.Flight(p.ref, v.handlers[q].stage)
              && p.ref in v.Abs().heap && v.Abs().heap[p.ref] == p.View()
  {
    if q in v.handlers { FindRecord(v, v.handlers[q].session); }
    hide Known, HeapView;
  }

  lemma Added(v: Verifier, id: string, p: Session, record: M.Session)
    requires v.Valid() && p.ref == |v.heap| && record == p.View()
    ensures var order := if id in v.sessions then v.order else v.order + [id];
            && Holds(v.heap + [p], v.sessions[id := p], order, v.handlers)
            && HeapView(v.heap + [p]) == HeapView(v.heap)[|v.heap| := record]
            && M.Perform(v.Abs(), M.AddSession(id, record)) ==
               StateOf(HeapView(v.heap)[|v.heap| := record], |v.heap| + 1, v.sessions[id := p], order, v.handlers)
  {
    assert RefsView(v.sessions[id := p]) == RefsView(v.sessions)[id := p.ref];
  }

  lemma Dropped(v: Verifier, id: string)
    requires v.Valid()
    ensures Holds(v.heap, v.sessions - {id}, M.Without(v.order, id), v.handlers)
    ensures M.Perform(v.Abs(), M.DropSession(id)) == StateOf(HeapView(v.heap), |v.heap|, v.sessions - {id}, M.Without(v.order, id), v.handlers)
  {
    hide Known, HeapView, M.Wf;
    assert RefsView(v.sessions - {id}) == RefsView(v.sessions) - {id};
  }

  /** Facts about the heap that survive a write to one session. */
  lemma Apart(v: Verifier, p: Session)
    requires v.Valid() && Known(v.heap, p)
    ensures forall r :: r in HeapView(v.heap) <==> 0 <= r < |v.heap|
    ensures forall r :: 0 <= r < |v.heap| ==> HeapView(v.heap)[r] == v.heap[r].View() && (r != p.ref ==> v.heap[r] != p)
  {
  }

  lemma HeapSet(heap: seq<Session>, p: Session, before: map<M.Ref, M.Session>)
    requires Known(heap, p) && forall r :: r in before <==> 0 <= r < |heap|
    requires forall r :: 0 <= r < |heap| && r != p.ref ==> before[r] == heap[r].View()
    ensures HeapView(heap) == before[p.ref := p.View()]
  {
  }

  lemma Consumed(v: Verifier, p: Session, q: nat, stage: M.Stage)
    requires v.Valid() && Known(v.heap, p)
    ensures Holds(v.heap, v.sessions, v.order, v.handlers[q := Handler(p, stage)])
    ensures forall r :: r in HeapView(v.heap) <==> 0 <= r < |v.heap|
    ensures forall r :: 0 <= r < |v.heap| ==> HeapView(v.heap)[r] == v.heap[r].View() && (r != p.ref ==> v.heap[r] != p)
    ensures var heap := HeapView(v.heap)[p.ref := p.View().(consumed := true)];
            && M.Perform(v.Abs(), M.Consume(p.ref)) == StateOf(heap, |v.heap|, v.sessions, v.order, v.handlers)
            && M.Perform(v.Abs(), M.Launch(p.ref, q, M.Flight(p.ref, stage))) == StateOf(heap, |v.heap|, v.sessions, v.order, v.handlers[q := Handler(p, stage)])
  {
    Apart(v, p);
    FindRecord(v, p);
    hide HeapView, M.Wf;
    assert FlightsView(v.handlers[q := Handler(p, stage)]) == FlightsView(v.handlers)[q := M.Flight(p.ref, stage)];
  }

  lemma Ended(v: Verifier, q: nat)
    requires v.Valid()
    ensures Holds(v.heap, v.sessions, v.order, v.handlers - {q})
    ensures M.Perform(v.Abs(), M.EndFlight(q)) == StateOf(HeapView(v.heap), |v.heap|, v.sessions, v.order, v.handlers - {q})
  {
    hide Known, HeapView, M.Wf;
    assert FlightsView(v.handlers - {q}) == FlightsView(v.handlers) - {q};
  }

  lemma Staged(v: Verifier, q: nat, p: Session, stage: M.Stage)
    requires v.Valid() && Known(v.heap, p)
    ensures Holds(v.heap, v.sessions, v.order, v.handlers[q := Handler(p, stage)])
    ensures M.Perform(v.Abs(), M.SetFlight(q, M.Flight(p.ref, stage))) ==
            StateOf(HeapView(v.heap), |v.heap|, v.sessions, v.order, v.handlers[q := Handler(p, stage)])
  {
    hide Known, HeapView, M.Wf;
    assert FlightsView(v.handlers[q := Handler(p, stage)]) == FlightsView(v.handlers)[q := M.Flight(p.ref, stage)];
  }

  lemma Finished(v: Verifier, q: nat, p: Session, verdict: M.Verdict)
    requires v.Valid() && Known(v.heap, p)
    ensures Holds(v.heap, v.sessions, v.order, v.handlers - {q})
    ensures forall r :: r in HeapView(v.heap) <==> 0 <= r < |v.heap|
    ensures forall r :: 0 <= r < |v.heap| ==> HeapView(v.heap)[r] == v.heap[r].View() && (r != p.ref ==> v.heap[r] != p)
    ensures M.Perform(v.Abs(), M.Finish(q, p.ref, verdict)) ==
            StateOf(HeapView(v.heap)[p.ref := p.View().(result := Some(verdict))], |v.heap|, v.sessions, v.order, v.handlers - {q})
  {
    Apart(v, p);
    FindRecord(v, p);
    hide HeapView, M.Wf;
    assert FlightsView(v.handlers - {q}) == FlightsView(v.handlers) - {q};
  }

  lemma Purged(v: Verifier, p: Session)
    requires v.Valid() && Known(v.heap, p)
    ensures forall r :: r in HeapView(v.heap) <==> 0 <= r < |v.heap|
    ensures forall r :: 0 <= r < |v.heap| ==> HeapView(v.heap)[r] == v.heap[r].View() && (r != p.ref ==> v.heap[r] != p)
    ensures M.Perform(v.Abs(), M.Purge(p.ref)) ==
            StateOf(HeapView(v.heap)[p.ref := p.View().(result := None)], |v.heap|, v.sessions, v.order, v.handlers)
  {
    Apart(v, p);
    FindRecord(v, p);
    hide HeapView, M.Wf;
  }

  lemma Swept(v: Verifier, now: int)
    requires v.Valid()
    ensures var live := LiveSessions(v.sessions, now);
            && Holds(v.heap, live, M.LiveOnly(v.order, live.Keys), v.handlers)
            && M.Perform(v.Abs(), M.DropExpired(now)) == StateOf(HeapView(v.heap), |v.heap|, live, M.LiveOnly(v.order, live.Keys), v.handlers)
  {
    LiveAreSessions(v.sessions, now);
    LiveHolds(v, LiveSessions(v.sessions, now));
    SweptSessions(v, now);
    hide HeapView, Known, Holds, M.Wf, M.Expired, M.LiveOnly, LiveSessions, RefsView;
  }

  lemma SweptSessions(v: Verifier, now: int)
    requires v.Valid()
    ensures var live := LiveSessions(v.sessions, now);
            M.Perform(v.Abs(), M.DropExpired(now)).sessions == RefsView(live) && RefsView(live).Keys == live.Keys
  {
    var s, live := v.Abs(), LiveSessions(v.sessions, now);
    forall k | k in v.sessions
      ensures M.Expired(s, now, s.sessions[k]) <==> k !in live
    {
      FindSession(v, k);
    }
    LiveAreSessions(v.sessions, now);
    hide HeapView, Known, Holds, M.Wf, M.Expired, M.LiveOnly, LiveSessions;
  }

  lemma LiveAreSessions(store: map<string, Session>, now: int)
    ensures forall k :: k in LiveSessions(store, now) ==> k in store && LiveSessions(store, now)[k] == store[k]
  {
  }

  lemma LiveHolds(v: Verifier, live: map<string, Session>)
    requires v.Valid() && forall k :: k in live ==> k in v.sessions && live[k] == v.sessions[k]
    ensures Holds(v.heap, live, M.LiveOnly(v.order, live.Keys), v.handlers)
  {
    hide Known;
  }
}
