/** Which presentations the verifier takes up: exactly the first one posted to a session in its lifetime, under
    every interleaving with other wallets, polls and sweeps. */
module VerifierService {
  import opened Basics
  import opened VerifierModel
  import opened VerifierTheorems
  import L = StatusLists

  /** No session is stored under two identifiers. */
  ghost predicate OneIdEach(s: State) {
    forall a, b :: a in s.sessions && b in s.sessions && s.sessions[a] == s.sessions[b] ==> a == b
  }

  lemma EffectKeepsOneId(s: State, e: Effect)
    requires Wf(s) && OneIdEach(s)
    ensures OneIdEach(Perform(s, e))
  {
    assert forall k :: k in s.sessions ==> s.sessions[k] != s.nextRef;
    hide Expired, LiveOnly, Without;
  }

  lemma {:induction false} RunKeepsOneId(cfg: Config, input: seq<Timed>)
    ensures OneIdEach(Run(cfg, input).0)
  {
    if input != [] {
      var before, last := input[..|input| - 1], input[|input| - 1];
      RunKeepsOneId(cfg, before);
      EffectKeepsOneId(Run(cfg, before).0, Decide(cfg, Run(cfg, before).0, last.now, last.event).0);
      hide Decide, Perform, Wf, OneIdEach;
    }
  }

  /** This post used the session up: a handler set out with it, or reading its token failed. */
  predicate UsesUp(x: Entry, id: string) {
    x.event.PostResponse? && x.event.id == id && (x.response == Awaiting || x.response == Failed(500))
  }

  /** A session as the store holds it at some moment, or nothing once it has been dropped. */
  datatype Stored = Stored(ref: Ref, createdAt: int, consumed: bool)

  function Lookup(s: State, id: string): Option<Stored>
    requires Wf(s)
  {
    if id in s.sessions then Some(Stored(s.sessions[id], s.heap[s.sessions[id]].createdAt, s.heap[s.sessions[id]].consumed)) else None
  }

  /** How one effect changes what is stored under an identifier. */
  lemma LookupAfter(s: State, e: Effect, id: string)
    requires Wf(s) && Grounded(s, e) && Wf(Perform(s, e)) && id in s.sessions && !(e.AddSession? && e.id == id)
    ensures var was, left := Lookup(s, id).value, Lookup(Perform(s, e), id);
            && (left.None? <==> (e == DropSession(id) || (e.DropExpired? && e.now - was.createdAt > SESSION_TTL_MS)))
            && (left.Some? ==>
                  left.value.ref == was.ref && left.value.createdAt == was.createdAt &&
                  left.value.consumed == (was.consumed || ((e.Consume? || e.Launch?) && e.ref == was.ref)))
  {
    assert s.sessions[id] in s.heap && s.sessions[id] != s.nextRef;
    if e.DropExpired? || e.DropSession? || e.AddSession? {
      hide LiveOnly, Without;
    } else {
      HeapAndFlightsAfter(s, e);
      assert Perform(s, e).sessions == s.sessions;
      hide Perform, LiveOnly, Without, Expired;
    }
  }

  lemma NothingAppears(s: State, e: Effect, id: string)
    requires Wf(s) && id !in s.sessions && !(e.AddSession? && e.id == id)
    ensures id !in Perform(s, e).sessions
  {
    hide LiveOnly, Without;
  }

  /** Which events have these effects. */
  lemma EventsBehind(cfg: Config, s: State, now: int, event: Event)
    requires Wf(s)
    ensures var (e, response) := Decide(cfg, s, now, event);
            && (e.AddSession? ==> event.PostRequest? && e.id == event.newId)
            && (e.DropExpired? ==> e.now == now)
            && (e.DropSession? ==> e.id in s.sessions && Expired(s, now, s.sessions[e.id]))
            && (e.Consume? || e.Launch? <==> event.PostResponse? && (response == Awaiting || response == Failed(500)))
            && (e.Consume? || e.Launch? ==> event.id in s.sessions && s.sessions[event.id] == e.ref)
  {
    hide Check, WithDcql, WithStatus, L.ReadStatus, NamedIssuer, FindToken;
  }

  /** What one step does to a stored session: it goes only when expired, and is used up only by a post to it. */
  lemma StepLookup(cfg: Config, s: State, now: int, event: Event, id: string)
    requires Wf(s) && OneIdEach(s) && !(event.PostRequest? && event.newId == id)
    ensures var (s', response) := Step(cfg, s, now, event);
            && Wf(s')
            && (Lookup(s, id).None? ==> Lookup(s', id).None?)
            && (Lookup(s, id).Some? && Lookup(s', id).None? ==> now - Lookup(s, id).value.createdAt > SESSION_TTL_MS)
            && (Lookup(s, id).Some? && Lookup(s', id).Some? ==>
                  var was, left := Lookup(s, id).value, Lookup(s', id).value;
                  && left.createdAt == was.createdAt
                  && left.consumed == (was.consumed || UsesUp(Entry(now, event, response), id)))
  {
    var (e, response) := Decide(cfg, s, now, event);
    EventsBehind(cfg, s, now, event);
    DecisionsAreGrounded(cfg, s, now, event);
    GroundedKeepsWf(s, e);
    if id in s.sessions {
      LookupAfter(s, e, id);
      assert (e.Consume? || e.Launch?) && e.ref == s.sessions[id] ==> event.id == id;
    } else {
      NothingAppears(s, e, id);
    }
    hide Decide, Perform, Grounded, OneIdEach;
  }

  // ------------------------------------------------------------------- runs

  /** Position `k` opened the session, and nobody mints its identifier again before `j`. */
  ghost predicate OpenedAt(input: seq<Timed>, k: nat, j: nat, id: string) {
    && k < j < |input| && input[k].event.PostRequest? && input[k].event.newId == id
    && forall m :: k < m < j ==> !(input[m].event.PostRequest? && input[m].event.newId == id)
  }

  ghost predicate ClockRunsForward(input: seq<Timed>) {
    forall i, j :: 0 <= i <= j < |input| ==> input[i].now <= input[j].now
  }

  ghost predicate UsedBetween(log: seq<Entry>, k: nat, n: nat, id: string) {
    exists i :: k < i < n <= |log| && UsesUp(log[i], id)
  }

  /** What is stored at position `n` of a session opened at `k`: it is there until its lifetime has passed, and
      used up exactly by the posts so far. */
  ghost predicate Tracked(cfg: Config, input: seq<Timed>, k: nat, n: nat, id: string)
    requires k < n <= |input|
  {
    var s, log := Run(cfg, input[..n]).0, Run(cfg, input).1;
    match Lookup(s, id)
    case None => exists i :: k < i < n && input[i].now - input[k].now > SESSION_TTL_MS
    case Some(stored) => stored.createdAt == input[k].now && (stored.consumed <==> UsedBetween(log, k, n, id))
  }

  lemma OpeningTracks(cfg: Config, input: seq<Timed>, k: nat, j: nat, id: string)
    requires OpenedAt(input, k, j, id) && Run(cfg, input).1[k].response.RequestCreated?
    ensures Tracked(cfg, input, k, k + 1, id)
  {
    RunContinues(cfg, input, k);
    hide Run;
  }

  lemma UsedOneMore(log: seq<Entry>, k: nat, n: nat, id: string)
    requires k < n < |log|
    ensures UsedBetween(log, k, n + 1, id) <==> UsedBetween(log, k, n, id) || UsesUp(log[n], id)
  {
    hide UsesUp;
  }

  lemma {:induction false} SessionIsTracked(cfg: Config, input: seq<Timed>, k: nat, n: nat, j: nat, id: string)
    requires OpenedAt(input, k, j, id) && Run(cfg, input).1[k].response.RequestCreated? && k < n <= j
    ensures Tracked(cfg, input, k, n, id)
    decreases n
  {
    if n == k + 1 {
      OpeningTracks(cfg, input, k, j, id);
      hide *;
    } else {
      var s, x := Run(cfg, input[..n - 1]).0, input[n - 1];
      assert !(x.event.PostRequest? && x.event.newId == id);
      hide Run, Step, Lookup, UsesUp, UsedBetween, Wf, OneIdEach, OpenedAt;
      SessionIsTracked(cfg, input, k, n - 1, j, id);
      RunContinues(cfg, input, n - 1);
      RunKeepsOneId(cfg, input[..n - 1]);
      StepLookup(cfg, s, x.now, x.event, id);
      UsedOneMore(Run(cfg, input).1, k, n - 1, id);
    }
  }

  lemma TakenExactly(cfg: Config, s: State, now: int, request: nat, id: string, vpToken: string)
    requires Wf(s) && request !in s.flights && vpToken != ""
    requires id in s.sessions ==> NamedIssuer(cfg, s.heap[s.sessions[id]].mdoc, vpToken).Some?
    ensures Step(cfg, s, now, PostResponse(request, id, vpToken)).1 == Awaiting <==>
            Lookup(s, id).Some? && now - Lookup(s, id).value.createdAt <= SESSION_TTL_MS && !Lookup(s, id).value.consumed
  {
    hide NamedIssuer;
  }

  /** A readable presentation posted to a session is taken up if and only if the session is at most five minutes
      old and no post has used it up before. */
  lemma {:induction false} FirstPostInTimeIsTaken(cfg: Config, input: seq<Timed>, k: nat, j: nat, request: nat, id: string, vpToken: string)
    requires ClockRunsForward(input) && OpenedAt(input, k, j, id) && Run(cfg, input).1[k].response.RequestCreated?
    requires input[j].event == PostResponse(request, id, vpToken) && vpToken != "" && request !in Run(cfg, input[..j]).0.flights
    requires forall mdoc :: NamedIssuer(cfg, mdoc, vpToken).Some?
    ensures Run(cfg, input).1[j].response == Awaiting <==>
            input[j].now - input[k].now <= 300_000 && !UsedBetween(Run(cfg, input).1, k, j, id)
  {
    SessionIsTracked(cfg, input, k, j, j, id);
    RunContinues(cfg, input, j);
    assert forall i :: k < i < j ==> input[i].now <= input[j].now;
    hide Run, Step, UsedBetween, Wf, NamedIssuer;
    TakenExactly(cfg, Run(cfg, input[..j]).0, input[j].now, request, id, vpToken);
    hide Lookup;
  }
}
