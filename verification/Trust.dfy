/** The verifier's trust resolver: an allow-list of issuers and a cache of their keys. A resolution that misses the
    cache is suspended while it fetches metadata, and others may run meanwhile. */
module Trust {
  import opened Basics
  import opened Crypto

  const TRUST_CACHE_TTL_MS := 300_000

  datatype Cached = Cached(key: Json, cachedAt: int)

  datatype State = State(cache: map<string, Cached>, fetching: map<nat, string>)

  /** `Fetched` carries the issuer's metadata, or `None` when fetching or parsing it failed. */
  datatype Event = Ask(request: nat, issuer: string) | Fetched(request: nat, meta: Option<Json>)

  datatype Response = KeyFor(issuer: string, key: Json) | Fetching(url: string) | Untrusted(status: int) | NoSuchRequest

  predicate IsP256(key: Json) {
    Field(Some(key), "kty") == Some(Str("EC")) && Field(Some(key), "crv") == Some(Str("P-256"))
  }

  function MetadataUrl(issuer: string): string { issuer + "/.well-known/openid-credential-issuer" }

  function Step(trusted: seq<string>, s: State, now: int, e: Event): (State, Response) {
    match e
    case Ask(request, issuer) =>
      if request in s.fetching then (s, NoSuchRequest)
      else if issuer !in trusted then (s, Untrusted(403))
      else if issuer in s.cache && now - s.cache[issuer].cachedAt < TRUST_CACHE_TTL_MS then (s, KeyFor(issuer, s.cache[issuer].key))
      else (s.(fetching := s.fetching[request := issuer]), Fetching(MetadataUrl(issuer)))
    case Fetched(request, meta) =>
      if request !in s.fetching then (s, NoSuchRequest)
      else
        var issuer, s' := s.fetching[request], s.(fetching := s.fetching - {request});
        if meta.None? then (s', Untrusted(502))
        else
          var key := FirstKey(Field(meta, "jwks"));
          if !Truthy(key) || !IsP256(key.value) then (s', Untrusted(400))
          else (s'.(cache := s'.cache[issuer := Cached(key.value, now)]), KeyFor(issuer, key.value))
  }

  /** The resolver, with a ghost record of everything it was asked and answered. */
  class StaticTrustResolver {
    const trustedIssuers: seq<string>
    var cache: map<string, Cached>
    var fetching: map<nat, string>
    ghost var log: seq<Entry>

    ghost predicate Valid()
      reads this
    {
      Accounted(trustedIssuers, State(cache, fetching), log)
    }

    constructor (trustedIssuers: seq<string>)
      ensures Valid() && this.trustedIssuers == trustedIssuers && State(cache, fetching) == INIT && log == []
    {
      this.trustedIssuers, cache, fetching, log := trustedIssuers, map[], map[], [];
    }

    /** `resolveIssuerKey`, up to its fetch: a key that comes out of the cache is a trusted issuer's own P-256 key,
        received less than five minutes ago from its metadata. */
    method Resolve(now: int, request: nat, issuer: string) returns (response: Response)
      requires Valid()
      modifies this
      ensures Valid() && log == old(log) + [Entry(now, Ask(request, issuer), response)]
      ensures response.KeyFor? ==> response.issuer == issuer && Vouched(trustedIssuers, log, |old(log)|, issuer, response.key)
      ensures issuer !in trustedIssuers ==> !response.KeyFor? && !response.Fetching?
      ensures (State(cache, fetching), response) == Step(trustedIssuers, old(State(cache, fetching)), now, Ask(request, issuer))
    {
      hide Accounted, Vouched, IsP256;
      StepKeepsAccount(trustedIssuers, State(cache, fetching), log, now, Ask(request, issuer));
      AnswersAreVouched(trustedIssuers, State(cache, fetching), log, now, Ask(request, issuer));
      if request in fetching {
        response := NoSuchRequest;
      } else if issuer !in trustedIssuers {
        response := Untrusted(403);
      } else if issuer in cache && now - cache[issuer].cachedAt < TRUST_CACHE_TTL_MS {
        response := KeyFor(issuer, cache[issuer].key);
      } else {
        fetching := fetching[request := issuer];
        response := Fetching(MetadataUrl(issuer));
      }
      log := log + [Entry(now, Ask(request, issuer), response)];
    }

    /** `resolveIssuerKey`, after its fetch: a key that comes out is the P-256 key in the metadata of the trusted issuer
        that this request asked for; otherwise the cache stays as it was. */
    method Receive(now: int, request: nat, meta: Option<Json>) returns (response: Response)
      requires Valid()
      modifies this
      ensures Valid() && log == old(log) + [Entry(now, Fetched(request, meta), response)]
      ensures if response.KeyFor?
              then Vouched(trustedIssuers, log, |old(log)|, response.issuer, response.key) && cache == old(cache)[response.issuer := Cached(response.key, now)]
              else cache == old(cache)
      ensures (State(cache, fetching), response) == Step(trustedIssuers, old(State(cache, fetching)), now, Fetched(request, meta))
    {
      hide Accounted, Vouched, IsP256;
      StepKeepsAccount(trustedIssuers, State(cache, fetching), log, now, Fetched(request, meta));
      AnswersAreVouched(trustedIssuers, State(cache, fetching), log, now, Fetched(request, meta));
      if request !in fetching {
        response := NoSuchRequest;
      } else {
        var issuer := fetching[request];
        fetching := fetching - {request};
        var key := FirstKey(Field(meta, "jwks"));
        if meta.None? {
          response := Untrusted(502);
        } else if !Truthy(key) || !IsP256(key.value) {
          response := Untrusted(400);
        } else {
          cache := cache[issuer := Cached(key.value, now)];
          response := KeyFor(issuer, key.value);
        }
      }
      log := log + [Entry(now, Fetched(request, meta), response)];
    }
  }

  // -------------------------------------------------------------------- runs

  const INIT := State(map[], map[])

  datatype Timed = Timed(now: int, event: Event)
  datatype Entry = Entry(now: int, event: Event, response: Response)

  function Run(trusted: seq<string>, input: seq<Timed>): (r: (State, seq<Entry>))
    ensures |r.1| == |input|
  {
    if input == [] then (INIT, [])
    else
      var (s, log), last := Run(trusted, input[..|input| - 1]), input[|input| - 1];
      var (s', response) := Step(trusted, s, last.now, last.event);
      (s', log + [Entry(last.now, last.event, response)])
  }

  /** Position `j` sent this request to fetch this issuer's metadata. */
  ghost predicate AskedAt(log: seq<Entry>, j: int, request: nat, issuer: string) {
    0 <= j < |log| && log[j].event == Ask(request, issuer) && log[j].response == Fetching(MetadataUrl(issuer))
  }

  /** Position `k` received this key: the first of the JWKS in the metadata that answered an earlier fetch of this
      issuer's own metadata URL. */
  ghost predicate ReceivedAt(log: seq<Entry>, k: int, issuer: string, key: Json) {
    && 0 <= k < |log| && log[k].event.Fetched? && FirstKey(Field(log[k].event.meta, "jwks")) == Some(key)
    && log[k].response == KeyFor(issuer, key)
    && exists j :: j < k && AskedAt(log, j, log[k].event.request, issuer)
  }

  /** The key returned at position `i` was received there, or less than five minutes before. */
  ghost predicate Fresh(log: seq<Entry>, i: int, issuer: string, key: Json) {
    exists k :: k <= i < |log| && ReceivedAt(log, k, issuer, key) && (k == i || log[i].now - log[k].now < 300_000)
  }

  /** The issuer is on the list, the key is P-256, and it was freshly received from that issuer's metadata. */
  ghost predicate Vouched(trusted: seq<string>, log: seq<Entry>, i: int, issuer: string, key: Json) {
    issuer in trusted && IsP256(key) && Fresh(log, i, issuer, key)
  }

  ghost predicate CacheAccounted(trusted: seq<string>, s: State, log: seq<Entry>) {
    forall issuer :: issuer in s.cache ==>
      && issuer in trusted && IsP256(s.cache[issuer].key)
      && exists k :: ReceivedAt(log, k, issuer, s.cache[issuer].key) && log[k].now == s.cache[issuer].cachedAt
  }

  ghost predicate FetchingAccounted(trusted: seq<string>, s: State, log: seq<Entry>) {
    forall q :: q in s.fetching ==> s.fetching[q] in trusted && exists k :: AskedAt(log, k, q, s.fetching[q])
  }

  ghost predicate KeysAccounted(trusted: seq<string>, log: seq<Entry>) {
    forall i :: 0 <= i < |log| && log[i].response.KeyFor? ==>
      Vouched(trusted, log, i, log[i].response.issuer, log[i].response.key)
  }

  ghost predicate Accounted(trusted: seq<string>, s: State, log: seq<Entry>) {
    CacheAccounted(trusted, s, log) && FetchingAccounted(trusted, s, log) && KeysAccounted(trusted, log)
  }

  lemma StillReceived(log: seq<Entry>, x: Entry)
    ensures forall j, q, issuer :: AskedAt(log, j, q, issuer) ==> AskedAt(log + [x], j, q, issuer)
    ensures forall k, issuer, key :: ReceivedAt(log, k, issuer, key) ==> ReceivedAt(log + [x], k, issuer, key)
  {
    forall k, issuer, key | ReceivedAt(log, k, issuer, key)
      ensures ReceivedAt(log + [x], k, issuer, key)
    {
      var j :| j < k && AskedAt(log, j, log[k].event.request, issuer);
      assert AskedAt(log + [x], j, log[k].event.request, issuer);
    }
  }

  lemma StillFresh(log: seq<Entry>, x: Entry, i: int, issuer: string, key: Json)
    requires Fresh(log, i, issuer, key)
    ensures Fresh(log + [x], i, issuer, key)
  {
    var k :| k <= i < |log| && ReceivedAt(log, k, issuer, key) && (k == i || log[i].now - log[k].now < 300_000);
    StillReceived(log, x);
    assert ReceivedAt(log + [x], k, issuer, key);
  }

  lemma StepKeepsKeys(trusted: seq<string>, s: State, log: seq<Entry>, now: int, e: Event)
    requires Accounted(trusted, s, log)
    ensures KeysAccounted(trusted, log + [Entry(now, e, Step(trusted, s, now, e).1)])
  {
    var response := Step(trusted, s, now, e).1;
    var x := Entry(now, e, response);
    var log' := log + [x];
    hide IsP256, FirstKey, MetadataUrl;
    if response.KeyFor? {
      StillReceived(log, x);
      if e.Fetched? {
        NewlyReceived(trusted, s, log, now, e);
      } else {
        var k :| ReceivedAt(log, k, e.issuer, response.key) && log[k].now == s.cache[e.issuer].cachedAt;
        assert ReceivedAt(log', k, e.issuer, response.key);
      }
      assert Vouched(trusted, log', |log|, response.issuer, response.key);
    }
    hide ReceivedAt, AskedAt, Step, Fresh;
    forall i | 0 <= i < |log| && log[i].response.KeyFor?
      ensures Vouched(trusted, log', i, log[i].response.issuer, log[i].response.key)
    {
      assert Vouched(trusted, log, i, log[i].response.issuer, log[i].response.key);
      StillFresh(log, x, i, log[i].response.issuer, log[i].response.key);
    }
  }

  /** A key received now answers the fetch that its request is suspended on. */
  lemma NewlyReceived(trusted: seq<string>, s: State, log: seq<Entry>, now: int, e: Event)
    requires FetchingAccounted(trusted, s, log) && e.Fetched? && Step(trusted, s, now, e).1.KeyFor?
    ensures var response := Step(trusted, s, now, e).1;
            ReceivedAt(log + [Entry(now, e, response)], |log|, response.issuer, response.key) && response.issuer in trusted
  {
    var log' := log + [Entry(now, e, Step(trusted, s, now, e).1)];
    var j :| AskedAt(log, j, e.request, s.fetching[e.request]);
    assert AskedAt(log', j, log'[|log|].event.request, s.fetching[e.request]);
    hide IsP256, FirstKey, MetadataUrl;
  }

  lemma AnswersAreVouched(trusted: seq<string>, s: State, log: seq<Entry>, now: int, e: Event)
    requires Accounted(trusted, s, log)
    ensures var response := Step(trusted, s, now, e).1;
            response.KeyFor? ==> Vouched(trusted, log + [Entry(now, e, response)], |log|, response.issuer, response.key)
  {
    StepKeepsKeys(trusted, s, log, now, e);
    hide Step, Vouched;
    assert (log + [Entry(now, e, Step(trusted, s, now, e).1)])[|log|].response == Step(trusted, s, now, e).1;
  }

  lemma StepKeepsStores(trusted: seq<string>, s: State, log: seq<Entry>, now: int, e: Event)
    requires Accounted(trusted, s, log)
    ensures var (s', response) := Step(trusted, s, now, e); var log' := log + [Entry(now, e, response)];
            CacheAccounted(trusted, s', log') && FetchingAccounted(trusted, s', log')
  {
    var (s', response) := Step(trusted, s, now, e);
    var log' := log + [Entry(now, e, response)];
    StillReceived(log, Entry(now, e, response));
    hide IsP256, FirstKey, MetadataUrl, KeysAccounted;
    if response.KeyFor? && e.Fetched? {
      NewlyReceived(trusted, s, log, now, e);
    }
    if response.Fetching? {
      assert AskedAt(log', |log|, e.request, e.issuer);
    }
    hide ReceivedAt, AskedAt;
  }

  lemma StepKeepsAccount(trusted: seq<string>, s: State, log: seq<Entry>, now: int, e: Event)
    requires Accounted(trusted, s, log)
    ensures var (s', response) := Step(trusted, s, now, e); Accounted(trusted, s', log + [Entry(now, e, response)])
  {
    StepKeepsKeys(trusted, s, log, now, e);
    StepKeepsStores(trusted, s, log, now, e);
    hide Step, CacheAccounted, FetchingAccounted, KeysAccounted;
  }

  lemma {:induction false} RunIsAccounted(trusted: seq<string>, input: seq<Timed>)
    ensures Accounted(trusted, Run(trusted, input).0, Run(trusted, input).1)
  {
    if input != [] {
      var before, last := input[..|input| - 1], input[|input| - 1];
      var (s, log) := Run(trusted, before);
      RunIsAccounted(trusted, before);
      StepKeepsAccount(trusted, s, log, last.now, last.event);
      hide Step, Accounted;
    }
  }

  /** Whatever the interleaving: a key is only ever returned for an issuer on the list, it is a P-256 key, and it
      came in the answer to a fetch of that issuer's own metadata URL, just now or less than five minutes before. */
  lemma ReturnedKeysAreTrustedAndFresh(trusted: seq<string>, input: seq<Timed>, i: nat)
    requires i < |input| && Run(trusted, input).1[i].response.KeyFor?
    ensures var log := Run(trusted, input).1; var KeyFor(issuer, key) := log[i].response;
            Vouched(trusted, log, i, issuer, key)
  {
    RunIsAccounted(trusted, input);
    hide Vouched, CacheAccounted, FetchingAccounted;
  }

  // ------------------------------------------------- every answer, from the log

  /** The answer at this position received a key of this issuer. */
  predicate Receives(x: Entry, issuer: string) {
    x.event.Fetched? && x.response.KeyFor? && x.response.issuer == issuer
  }

  /** Before position `n`, the issuer's key was last received at `k`. */
  ghost predicate LastReceived(log: seq<Entry>, k: nat, n: nat, issuer: string) {
    k < n <= |log| && Receives(log[k], issuer) && forall i :: k < i < n ==> !Receives(log[i], issuer)
  }

  /** At position `n`, the request sent at `a` still waits for its metadata. */
  ghost predicate Waiting(log: seq<Entry>, a: nat, n: nat, request: nat) {
    && a < n <= |log| && log[a].event.Ask? && log[a].event.request == request && log[a].response.Fetching?
    && forall i :: a < i < n ==> !(log[i].event.Fetched? && log[i].event.request == request)
  }

  ghost predicate CacheTold(s: State, log: seq<Entry>, issuer: string) {
    if issuer in s.cache
    then exists k: nat :: LastReceived(log, k, |log|, issuer) && s.cache[issuer] == Cached(log[k].response.key, log[k].now)
    else forall k: nat :: !LastReceived(log, k, |log|, issuer)
  }

  ghost predicate FetchingTold(s: State, log: seq<Entry>, request: nat) {
    if request in s.fetching
    then exists a: nat :: Waiting(log, a, |log|, request) && s.fetching[request] == log[a].event.issuer
    else forall a: nat :: !Waiting(log, a, |log|, request)
  }

  lemma ReceivedOneMore(log: seq<Entry>, x: Entry, k: nat, issuer: string)
    ensures k < |log| ==> (LastReceived(log + [x], k, |log| + 1, issuer) <==> LastReceived(log, k, |log|, issuer) && !Receives(x, issuer))
    ensures LastReceived(log + [x], |log|, |log| + 1, issuer) <==> Receives(x, issuer)
  {
    hide Receives;
    var log' := log + [x];
    assert log'[|log|] == x && forall i :: 0 <= i < |log| ==> log'[i] == log[i];
  }

  lemma WaitingOneMore(log: seq<Entry>, x: Entry, a: nat, request: nat)
    ensures a < |log| ==>
              (Waiting(log + [x], a, |log| + 1, request) <==> Waiting(log, a, |log|, request) && !(x.event.Fetched? && x.event.request == request))
    ensures Waiting(log + [x], |log|, |log| + 1, request) <==> x.event.Ask? && x.event.request == request && x.response.Fetching?
  {
    var log' := log + [x];
    assert log'[|log|] == x && forall i :: 0 <= i < |log| ==> log'[i] == log[i];
  }

  lemma OneLast(log: seq<Entry>, k: nat, k': nat, n: nat, issuer: string)
    requires LastReceived(log, k, n, issuer) && LastReceived(log, k', n, issuer)
    ensures k == k'
  {
    hide Receives;
  }

  lemma StepTellsCache(trusted: seq<string>, s: State, log: seq<Entry>, now: int, e: Event, issuer: string)
    requires CacheTold(s, log, issuer)
    ensures var (s', response) := Step(trusted, s, now, e); CacheTold(s', log + [Entry(now, e, response)], issuer)
  {
    var (s', response) := Step(trusted, s, now, e);
    var x := Entry(now, e, response);
    var log' := log + [x];
    forall k: nat
      ensures k < |log| ==> (LastReceived(log', k, |log'|, issuer) <==> LastReceived(log, k, |log|, issuer) && !Receives(x, issuer))
      ensures LastReceived(log', |log|, |log'|, issuer) <==> Receives(x, issuer)
      ensures LastReceived(log', k, |log'|, issuer) ==> k <= |log|
    {
      ReceivedOneMore(log, x, k, issuer);
    }
    hide LastReceived, FirstKey, IsP256, MetadataUrl;
    if Receives(x, issuer) {
      assert log'[|log|] == x;
      assert s'.cache[issuer] == Cached(response.key, now);
    } else {
      assert issuer in s.cache <==> issuer in s'.cache;
      if issuer in s.cache {
        var k: nat :| LastReceived(log, k, |log|, issuer) && s.cache[issuer] == Cached(log[k].response.key, log[k].now);
        InBounds(log, k, issuer);
        assert log'[k] == log[k];
      }
    }
  }

  lemma InBounds(log: seq<Entry>, k: nat, issuer: string)
    requires LastReceived(log, k, |log|, issuer)
    ensures k < |log| && log[k].response.KeyFor?
  {
  }

  lemma StepTellsFetching(trusted: seq<string>, s: State, log: seq<Entry>, now: int, e: Event, request: nat)
    requires FetchingTold(s, log, request)
    ensures var (s', response) := Step(trusted, s, now, e); FetchingTold(s', log + [Entry(now, e, response)], request)
  {
    var (s', response) := Step(trusted, s, now, e);
    var x := Entry(now, e, response);
    var log' := log + [x];
    forall a: nat
      ensures a < |log| ==> (Waiting(log', a, |log'|, request) <==> Waiting(log, a, |log|, request) && !(e.Fetched? && e.request == request))
      ensures Waiting(log', |log|, |log'|, request) <==> e.Ask? && e.request == request && response.Fetching?
      ensures Waiting(log', a, |log'|, request) ==> a <= |log|
    {
      WaitingOneMore(log, x, a, request);
    }
    assert log'[|log|] == x;
    assert forall a: nat :: Waiting(log, a, |log|, request) ==> a < |log| && log'[a] == log[a];
    hide Waiting, FirstKey, IsP256, MetadataUrl;
    if request in s.fetching {
      var a: nat :| Waiting(log, a, |log|, request) && s.fetching[request] == log[a].event.issuer;
      assert !(e.Fetched? && e.request == request) ==> Waiting(log', a, |log'|, request);
    }
  }

  lemma {:induction false} RunIsTold(trusted: seq<string>, input: seq<Timed>, issuer: string, request: nat)
    ensures var (s, log) := Run(trusted, input); CacheTold(s, log, issuer) && FetchingTold(s, log, request)
  {
    if input != [] {
      var before, last := input[..|input| - 1], input[|input| - 1];
      var (s, log) := Run(trusted, before);
      RunIsTold(trusted, before, issuer, request);
      StepTellsCache(trusted, s, log, last.now, last.event, issuer);
      StepTellsFetching(trusted, s, log, last.now, last.event, request);
      hide Step, CacheTold, FetchingTold;
    }
  }

  lemma {:induction false} RunContinues(trusted: seq<string>, input: seq<Timed>, n: nat)
    requires n < |input|
    ensures Run(trusted, input).1[..n] == Run(trusted, input[..n]).1
    ensures Run(trusted, input).1[n] == Entry(input[n].now, input[n].event, Step(trusted, Run(trusted, input[..n]).0, input[n].now, input[n].event).1)
    decreases |input|
  {
    hide Step;
    var before := input[..|input| - 1];
    if n < |before| {
      RunContinues(trusted, before, n);
      assert before[..n] == input[..n];
    }
  }

  /** What a question is answered, given the log before it. One about an issuer that is not listed: 403. One about a listed
      issuer: the key last received for it, for five minutes; after that the request goes to fetch the issuer's metadata. And
      metadata: 502 when it could not be fetched, 400 without a P-256 key in first place, and otherwise that key, for the
      issuer that was asked about. */
  ghost predicate RightAnswer(trusted: seq<string>, log: seq<Entry>, x: Entry) {
    var n := |log|;
    match x.event
    case Ask(request, issuer) =>
      if exists a: nat :: Waiting(log, a, n, request) then x.response == NoSuchRequest
      else if issuer !in trusted then x.response == Untrusted(403)
      else if exists k: nat :: LastReceived(log, k, n, issuer) && x.now - log[k].now < 300_000
      then exists k: nat :: LastReceived(log, k, n, issuer) && x.response == KeyFor(issuer, log[k].response.key)
      else x.response == Fetching(issuer + "/.well-known/openid-credential-issuer")
    case Fetched(request, meta) =>
      if exists a: nat :: Waiting(log, a, n, request)
      then
        var keys := Field(Field(meta, "jwks"), "keys");
        var key := if keys.Some? && keys.value.Arr? && keys.value.a != [] then Some(keys.value.a[0]) else None;
        if meta.None? then x.response == Untrusted(502)
        else if key.None? || Field(key, "kty") != Some(Str("EC")) || Field(key, "crv") != Some(Str("P-256")) then x.response == Untrusted(400)
        else exists a: nat :: Waiting(log, a, n, request) && x.response == KeyFor(log[a].event.issuer, key.value)
      else x.response == NoSuchRequest
  }

  lemma StepIsRight(trusted: seq<string>, s: State, log: seq<Entry>, now: int, e: Event)
    requires FetchingTold(s, log, e.request) && (e.Ask? ==> CacheTold(s, log, e.issuer))
    ensures RightAnswer(trusted, log, Entry(now, e, Step(trusted, s, now, e).1))
  {
    hide Waiting;
    if e.Ask? && e.issuer in s.cache {
      var k: nat :| LastReceived(log, k, |log|, e.issuer) && s.cache[e.issuer] == Cached(log[k].response.key, log[k].now);
      forall k': nat | LastReceived(log, k', |log|, e.issuer) ensures k' == k {
        OneLast(log, k, k', |log|, e.issuer);
      }
    }
  }

  /** Every answer of every run is the right one. */
  lemma {:induction false} AnsweredExactly(trusted: seq<string>, input: seq<Timed>, j: nat)
    requires j < |input|
    ensures var log := Run(trusted, input).1; log[j].event == input[j].event && log[j].now == input[j].now && RightAnswer(trusted, log[..j], log[j])
  {
    var (s, log) := Run(trusted, input[..j]);
    RunContinues(trusted, input, j);
    RunIsTold(trusted, input[..j], (if input[j].event.Ask? then input[j].event.issuer else ""), input[j].event.request);
    hide *;
    StepIsRight(trusted, s, log, input[j].now, input[j].event);
  }
}
