/** The outbound HTTP client: a guarded URL check and a bounded redirect loop driven by an arbitrary server. */
module SafeFetch {
  import opened Basics
  import opened Addresses

  const MAX_REDIRECTS := 5

  // ------------------------------------------------------------- the URL guard

  datatype Url = Url(origin: string, hostname: string, protocol: string)

  /** The WHATWG URL parser: `new URL(raw)`, and `new URL(relative, base).toString()`; `None` when it throws. */
  datatype UrlParser = UrlParser(parse: string -> Option<Url>, resolve: (string, string) -> Option<string>)

  /** What the redirect loop uses of a URL library: the guard, the origin, and resolution of a relative target. */
  datatype Site = Site(safe: string -> bool, origin: string -> Option<string>, resolve: (string, string) -> Option<string>)

  /** The program's own: `assertSafeUrl`, `new URL(u).origin`, `new URL(location, base).toString()`. */
  function GuardedSite(p: UrlParser): Site {
    Site(raw => SafeUrl(p, raw), raw => Origin(p, raw), p.resolve)
  }

  const LOOPBACK_HOSTS := {"localhost", "127.0.0.1", "[::1]"}

  /** `assertSafeUrl` returns rather than throws. */
  predicate SafeUrl(p: UrlParser, raw: string) {
    match p.parse(raw)
    case None => false
    case Some(url) =>
      !IsPrivateIPv4(url.hostname) && !IsPrivateIPv6(url.hostname) &&
      (url.hostname in LOOPBACK_HOSTS || url.protocol == "https:")
  }

  function Origin(p: UrlParser, raw: string): Option<string> {
    match p.parse(raw)
    case None => None
    case Some(url) => Some(url.origin)
  }

  // ---------------------------------------------------------- requests, replies

  datatype Init = Init(verb: string, headers: map<string, string>, body: Option<string>)
  datatype Request = Request(url: string, init: Init)
  datatype Reply = NetworkError | Reply(status: int, location: Option<string>, text: string)

  datatype FetchError = UnsafeUrl | NetworkFailure | NoLocation | BadLocation | HttpStatus(status: int) | TooManyRedirects
  datatype Outcome = Response(reply: Reply) | FetchFailed(error: FetchError)

  /** Any server behaviour: the reply may depend on every request so far. */
  type Server = seq<Request> -> Reply

  const CREDENTIAL_HEADERS := {"authorization", "cookie", "cookie2"}

  /** The request carries a credential header, in any letter case. */
  predicate HasCredentials(init: Init) {
    exists name | name in init.headers :: Lower(name) in CREDENTIAL_HEADERS
  }

  predicate CarriesSecret(init: Init) {
    HasCredentials(init) || init.body.Some?
  }

  function StripHeaders(headers: map<string, string>): map<string, string> {
    map name | name in headers && Lower(name) !in CREDENTIAL_HEADERS :: headers[name]
  }

  /** The request options for the next hop; only a change of origin alters them. */
  function NextInit(w: Site, init: Init, status: int, current: string, next: string): Init {
    if w.origin(next) == w.origin(current) then init
    else Init(if status == 301 || status == 302 || status == 303 then "GET" else init.verb, StripHeaders(init.headers), None)
  }

  // ------------------------------------------------------------------ the loop

  datatype Decision = Stop(outcome: Outcome) | Follow(next: string)

  /** What one reply leads to: an answer, a failure, or a redirect target that passed the guard. */
  function Decide(w: Site, current: string, reply: Reply): Decision {
    match reply
    case NetworkError => Stop(FetchFailed(NetworkFailure))
    case Reply(status, location, _) =>
      if 300 <= status < 400 then
        if location.None? || location.value == "" then Stop(FetchFailed(NoLocation))
        else match w.resolve(location.value, current)
          case None => Stop(FetchFailed(BadLocation))
          case Some(next) => if w.safe(next) then Follow(next) else Stop(FetchFailed(UnsafeUrl))
      else if 200 <= status < 300 then Stop(Response(reply))
      else Stop(FetchFailed(HttpStatus(status)))
  }

  /** The redirect loop from hop number `hop` on; returns the outcome and every request sent, in order. */
  function Hops(w: Site, server: Server, hop: nat, current: string, init: Init, sent: seq<Request>): (Outcome, seq<Request>)
    decreases MAX_REDIRECTS + 1 - hop
  {
    if hop > MAX_REDIRECTS then (FetchFailed(TooManyRedirects), sent)
    else
      var log := sent + [Request(current, init)];
      match Decide(w, current, server(log))
      case Stop(outcome) => (outcome, log)
      case Follow(next) => Hops(w, server, hop + 1, next, NextInit(w, init, server(log).status, current, next), log)
  }

  function Fetch(w: Site, server: Server, url: string, init: Init): (Outcome, seq<Request>) {
    if w.safe(url) then Hops(w, server, 0, url, init, []) else (FetchFailed(UnsafeUrl), [])
  }

  /** `safeFetch`: the loop over `current` and `currentInit`. */
  method RunFetch(w: Site, server: Server, url: string, init: Init) returns (outcome: Outcome, log: seq<Request>)
    ensures (outcome, log) == Fetch(w, server, url, init)
  {
    log := [];
    if !w.safe(url) {
      return FetchFailed(UnsafeUrl), log;
    }
    var current, currentInit, hop := url, init, 0;
    while hop <= MAX_REDIRECTS
      invariant 0 <= hop <= MAX_REDIRECTS + 1
      invariant Hops(w, server, hop, current, currentInit, log) == Fetch(w, server, url, init)
      decreases MAX_REDIRECTS + 1 - hop
    {
      log := log + [Request(current, currentInit)];
      var res := server(log);
      if res.NetworkError? {
        return FetchFailed(NetworkFailure), log;
      }
      if 300 <= res.status < 400 {
        if res.location.None? || res.location.value == "" {
          return FetchFailed(NoLocation), log;
        }
        var resolved := w.resolve(res.location.value, current);
        if resolved.None? {
          return FetchFailed(BadLocation), log;
        }
        if !w.safe(resolved.value) {
          return FetchFailed(UnsafeUrl), log;
        }
        if w.origin(resolved.value) != w.origin(current) {
          var headers := StripHeaders(currentInit.headers);
          if res.status == 301 || res.status == 302 || res.status == 303 {
            currentInit := Init("GET", headers, None);
          } else {
            currentInit := Init(currentInit.verb, headers, None);
          }
        }
        current, hop := resolved.value, hop + 1;
        continue;
      }
      if !(200 <= res.status < 300) {
        return FetchFailed(HttpStatus(res.status)), log;
      }
      return Response(res), log;
    }
    outcome := FetchFailed(TooManyRedirects);
  }

  // -------------------------------------------------------------- reading a body

  const MAX_BODY_BYTES := 1_048_576

  function Concat(chunks: seq<seq<bv8>>): seq<bv8> {
    if chunks == [] then [] else Concat(chunks[..|chunks| - 1]) + chunks[|chunks| - 1]
  }

  lemma {:induction false} ConcatGrows(chunks: seq<seq<bv8>>, n: nat)
    requires n <= |chunks|
    ensures |Concat(chunks[..n])| <= |Concat(chunks)|
  {
    if n < |chunks| {
      assert chunks[..|chunks| - 1][..n] == chunks[..n];
      ConcatGrows(chunks[..|chunks| - 1], n);
    } else {
      assert chunks[..n] == chunks;
    }
  }

  /** The reader of `safeFetchText`: the whole body when it fits; otherwise it gives up on the chunk that passes
      the limit, having buffered no more than the limit before it. */
  method ReadCapped(chunks: seq<seq<bv8>>) returns (body: Option<seq<bv8>>, count: nat)
    ensures body == if |Concat(chunks)| <= 1_048_576 then Some(Concat(chunks)) else None
    ensures count <= |chunks| && (count > 0 ==> |Concat(chunks[..count - 1])| <= 1_048_576)
  {
    var buffer: seq<bv8> := [];
    var total := 0;
    count := 0;
    while count < |chunks|
      invariant 0 <= count <= |chunks| && buffer == Concat(chunks[..count]) && total == |buffer| <= MAX_BODY_BYTES
    {
      var value := chunks[count];
      total := total + |value|;
      count := count + 1;
      assert chunks[..count][..count - 1] == chunks[..count - 1];
      if total > MAX_BODY_BYTES {
        ConcatGrows(chunks, count);
        return None, count;
      }
      buffer := buffer + value;
      ConcatGrows(chunks, count - 1);
    }
    assert chunks[..count] == chunks;
    if count > 0 { ConcatGrows(chunks, count - 1); }
    body := Some(buffer);
  }

  // ------------------------------------------------------------------ theorems

  lemma StrippedHasNoCredentials(headers: map<string, string>)
    ensures !HasCredentials(Init("", StripHeaders(headers), None))
  {
  }

  /** All requests so far went to the first origin, or the next one carries nothing secret. */
  ghost predicate Confined(w: Site, first: Option<string>, sent: seq<Request>, current: string, init: Init) {
    || !CarriesSecret(init)
    || (w.origin(current) == first && forall i :: 0 <= i < |sent| ==> w.origin(sent[i].url) == first)
  }

  /** What the log of a fetch promises, whatever the server answered. */
  ghost predicate SafeLog(w: Site, first: Option<string>, log: seq<Request>) {
    && |log| <= 6
    && (forall i :: 0 <= i < |log| ==> w.safe(log[i].url))
    && (forall i :: 0 <= i < |log| && CarriesSecret(log[i].init) ==>
          forall k :: 0 <= k <= i ==> w.origin(log[k].url) == first)
  }

  lemma {:induction false} HopsKeepConfined(
    w: Site, server: Server, first: Option<string>, hop: nat, current: string, init: Init, sent: seq<Request>)
    requires hop <= MAX_REDIRECTS + 1 && |sent| == hop && w.safe(current)
    requires SafeLog(w, first, sent) && Confined(w, first, sent, current, init)
    ensures SafeLog(w, first, Hops(w, server, hop, current, init, sent).1)
    ensures sent <= Hops(w, server, hop, current, init, sent).1
    decreases MAX_REDIRECTS + 1 - hop
  {
    if hop <= MAX_REDIRECTS {
      var log := sent + [Request(current, init)];
      assert SafeLog(w, first, log);
      var decision := Decide(w, current, server(log));
      if decision.Follow? {
        var next := NextInit(w, init, server(log).status, current, decision.next);
        StrippedHasNoCredentials(init.headers);
        assert Confined(w, first, log, decision.next, next);
        HopsKeepConfined(w, server, first, hop + 1, decision.next, next, log);
      }
    }
  }

  /** Against any server: at most six requests, each to a URL that passed the guard; and a request that still
      carries the body or a credential header, like every request before it, went to the first origin. */
  lemma SecretsStayWithTheFirstOrigin(w: Site, server: Server, url: string, init: Init)
    ensures SafeLog(w, w.origin(url), Fetch(w, server, url, init).1)
  {
    if w.safe(url) {
      HopsKeepConfined(w, server, w.origin(url), 0, url, init, []);
    }
  }

  /** Once a redirect has changed the origin, no later request carries the body or a credential header,
      not even when a further redirect returns to the first origin. */
  lemma StrippedOnceStrippedForGood(w: Site, server: Server, url: string, init: Init, i: nat, j: nat)
    requires var log := Fetch(w, server, url, init).1;
             i < j < |log| && w.origin(log[i].url) != w.origin(log[i + 1].url)
    ensures !CarriesSecret(Fetch(w, server, url, init).1[j].init)
  {
    SecretsStayWithTheFirstOrigin(w, server, url, init);
    var log := Fetch(w, server, url, init).1;
    assert w.origin(log[i].url) != w.origin(url) || w.origin(log[i + 1].url) != w.origin(url);
  }

  /** A fetch that returns has a 2xx answer to its last request; giving up on redirects takes exactly six. */
  lemma {:induction false} HopsOutcome(w: Site, server: Server, hop: nat, current: string, init: Init, sent: seq<Request>)
    requires hop <= MAX_REDIRECTS + 1 && |sent| == hop
    ensures var (outcome, log) := Hops(w, server, hop, current, init, sent);
            && (outcome.Response? ==> outcome.reply.Reply? && 200 <= outcome.reply.status < 300 &&
                                      log != [] && outcome.reply == server(log))
            && (outcome == FetchFailed(TooManyRedirects) ==> |log| == 6)
    decreases MAX_REDIRECTS + 1 - hop
  {
    if hop <= MAX_REDIRECTS {
      var log := sent + [Request(current, init)];
      var decision := Decide(w, current, server(log));
      if decision.Follow? {
        HopsOutcome(w, server, hop + 1, decision.next, NextInit(w, init, server(log).status, current, decision.next), log);
      }
    }
  }

  /** The guard never lets a request out to a listed private range, in the dotted or either IPv4-mapped form, nor to
      a canonical unique-local or link-local IPv6 literal. */
  lemma {:induction false} NoPrivateTarget(p: UrlParser, server: Server, url: string, init: Init, i: nat, a: Octet, b: Octet, c: Octet, d: Octet,
                        firstGroup: nat, rest: string)
    requires i < |Fetch(GuardedSite(p), server, url, init).1|
    requires InListedBlocks(Address(a, b, c, d)) && UniqueOrLinkLocal(firstGroup)
    ensures var target := p.parse(Fetch(GuardedSite(p), server, url, init).1[i].url);
            && target.Some?
            && target.value.hostname != DottedForm(a, b, c, d)
            && target.value.hostname != "[" + (MAPPED + HexForm(a, b, c, d)) + "]"
            && target.value.hostname != "[" + (MAPPED + DottedForm(a, b, c, d)) + "]"
            && target.value.hostname != "[" + (Print(firstGroup, true) + ":" + rest) + "]"
  {
    SecretsStayWithTheFirstOrigin(GuardedSite(p), server, url, init);
    EverySpellingAgrees(a, b, c, d);
    LocalIPv6IsPrivate(firstGroup, rest);
  }

  /** Every request goes to a URL that parses, over HTTPS unless the host is literally a loopback name; so a URL of any
      other protocol and host is never requested. */
  lemma OnlyHttpsLeavesLoopback(p: UrlParser, server: Server, url: string, init: Init)
    ensures var log := Fetch(GuardedSite(p), server, url, init).1;
            forall i :: 0 <= i < |log| ==>
              var target := p.parse(log[i].url);
              target.Some? && (target.value.protocol == "https:" || target.value.hostname in {"localhost", "127.0.0.1", "[::1]"})
  {
    SecretsStayWithTheFirstOrigin(GuardedSite(p), server, url, init);
    hide Fetch, HasCredentials, IsPrivateIPv4, IsPrivateIPv6;
  }

  /** And these the guard does not keep back: loopback hosts over any protocol; over HTTPS every host name that begins with
      a letter and not like a local IPv6 literal, every dotted address outside the listed blocks, and every IPv6
      literal with a four-digit first group outside the local ranges, are requested as given. */
  lemma AllowedIsRequested(p: UrlParser, server: Server, url: string, init: Init, a: Octet, b: Octet, c: Octet, d: Octet, firstGroup: nat, rest: string)
    requires p.parse(url).Some? && 0x1000 <= firstGroup <= 0xffff
    requires var target := p.parse(url).value;
             || target.hostname in {"localhost", "127.0.0.1", "[::1]"}
             || (target.protocol == "https:" && target.hostname != "" && IsLetter(target.hostname[0]) && !BeginsLikeLocal(target.hostname))
             || (target.protocol == "https:" && target.hostname == DottedForm(a, b, c, d) && !InListedBlocks(Address(a, b, c, d)))
             || (target.protocol == "https:" && target.hostname == "[" + (Print(firstGroup, true) + ":" + rest) + "]"
                 && !UniqueOrLinkLocal(firstGroup))
    ensures var log := Fetch(GuardedSite(p), server, url, init).1; log != [] && log[0] == Request(url, init)
  {
    var h := p.parse(url).value.hostname;
    OtherVerdicts(a, b, c, d);
    EverySpellingAgrees(a, b, c, d);
    LongGroupsAreRefusedExactly(firstGroup, rest);
    BracketsAreNoQuad(Print(firstGroup, true) + ":" + rest);
    if h != "" && IsLetter(h[0]) { NamesAreRefusedExactly(h); }
    hide IsPrivateIPv4, IsPrivateIPv6, DottedForm, InListedBlocks, UniqueOrLinkLocal, BeginsLikeLocal, Print;
    assert SafeUrl(p, url);
    LogIsAChain(GuardedSite(p), server, url, init);
    hide Fetch, Chained;
  }

  lemma BracketsAreNoQuad(inner: string)
    ensures !IsPrivateIPv4("[" + inner + "]")
  {
    NoQuadAfterLetter("[" + inner + "]");
  }

  // ------------------------------------------------------------- the whole log

  /** What the next request keeps: all, on the same origin; on another one neither body nor credential headers, and the
      method unless the status asks for GET. */
  ghost predicate Carries(w: Site, before: Request, status: int, after: Request) {
    if w.origin(after.url) == w.origin(before.url) then after.init == before.init
    else
      && after.init.body == None
      && after.init.verb == (if status in {301, 302, 303} then "GET" else before.init.verb)
      && (forall name :: name in after.init.headers <==> name in before.init.headers && Lower(name) !in {"authorization", "cookie", "cookie2"})
      && (forall name :: name in after.init.headers ==> after.init.headers[name] == before.init.headers[name])
  }

  /** Request `i + 1` follows the redirect that answered request `i`. */
  ghost predicate Chained(w: Site, server: Server, log: seq<Request>, i: nat)
    requires i + 1 < |log|
  {
    var r := server(log[..i + 1]);
    && r.Reply? && 300 <= r.status < 400 && r.location.Some? && r.location.value != ""
    && w.resolve(r.location.value, log[i].url) == Some(log[i + 1].url) && w.safe(log[i + 1].url)
    && Carries(w, log[i], r.status, log[i + 1])
  }

  /** What the last answer makes of the fetch. */
  ghost predicate Ends(w: Site, server: Server, log: seq<Request>, outcome: Outcome)
    requires log != []
  {
    var r, last := server(log), log[|log| - 1].url;
    if r.NetworkError? then outcome == FetchFailed(NetworkFailure)
    else if 200 <= r.status < 300 then outcome == Response(r)
    else if !(300 <= r.status < 400) then outcome == FetchFailed(HttpStatus(r.status))
    else if r.location.None? || r.location.value == "" then outcome == FetchFailed(NoLocation)
    else
      var next := w.resolve(r.location.value, last);
      if next.None? then outcome == FetchFailed(BadLocation)
      else if !w.safe(next.value) then outcome == FetchFailed(UnsafeUrl)
      else outcome == FetchFailed(TooManyRedirects) && |log| == 6
  }

  ghost predicate AllChained(w: Site, server: Server, log: seq<Request>) {
    forall i: nat :: i + 1 < |log| ==> Chained(w, server, log, i)
  }

  lemma NextCarries(w: Site, current: string, init: Init, status: int, next: string)
    ensures Carries(w, Request(current, init), status, Request(next, NextInit(w, init, status, current, next)))
  {
    hide Lower;
  }

  lemma {:induction false} HopsChain(w: Site, server: Server, hop: nat, current: string, init: Init, sent: seq<Request>)
    requires hop <= MAX_REDIRECTS && |sent| == hop && AllChained(w, server, sent + [Request(current, init)])
    ensures var (outcome, log) := Hops(w, server, hop, current, init, sent);
            && sent + [Request(current, init)] <= log && AllChained(w, server, log) && Ends(w, server, log, outcome)
    decreases MAX_REDIRECTS + 1 - hop
  {
    var log := sent + [Request(current, init)];
    var decision := Decide(w, current, server(log));
    if decision.Follow? && hop < MAX_REDIRECTS {
      var init' := NextInit(w, init, server(log).status, current, decision.next);
      var longer := log + [Request(decision.next, init')];
      NextCarries(w, current, init, server(log).status, decision.next);
      hide NextInit, Carries;
      forall i: nat | i + 1 < |longer|
        ensures Chained(w, server, longer, i)
      {
        assert longer[..i + 1] == log[..i + 1];
        if i + 1 < |log| { assert Chained(w, server, log, i); } else { assert log[..i + 1] == log; }
      }
      HopsChain(w, server, hop + 1, decision.next, init', log);
    } else {
      hide NextInit, Carries, Chained;
      LastHop(w, server, hop, current, init, sent);
    }
  }

  lemma LastHop(w: Site, server: Server, hop: nat, current: string, init: Init, sent: seq<Request>)
    requires hop <= MAX_REDIRECTS && |sent| == hop
    requires var log := sent + [Request(current, init)]; !(Decide(w, current, server(log)).Follow? && hop < MAX_REDIRECTS)
    ensures var (outcome, log) := Hops(w, server, hop, current, init, sent);
            log == sent + [Request(current, init)] && Ends(w, server, log, outcome)
  {
    var log := sent + [Request(current, init)];
    var decision := Decide(w, current, server(log));
    if decision.Follow? {
      assert hop == MAX_REDIRECTS;
      var init' := NextInit(w, init, server(log).status, current, decision.next);
      hide NextInit;
      assert Hops(w, server, hop + 1, decision.next, init', log) == (FetchFailed(TooManyRedirects), log);
    }
  }

  /** The log is a chain of redirects that starts with the request as given, each hop carrying over exactly what it may,
      and the last answer decides the outcome. Nothing is sent exactly when the guard refuses the URL. */
  lemma LogIsAChain(w: Site, server: Server, url: string, init: Init)
    ensures var (outcome, log) := Fetch(w, server, url, init);
            && (log == [] <==> !w.safe(url)) && (log == [] ==> outcome == FetchFailed(UnsafeUrl))
            && (log != [] ==> log[0] == Request(url, init) && |log| <= 6 && AllChained(w, server, log) && Ends(w, server, log, outcome))
  {
    if w.safe(url) {
      SecretsStayWithTheFirstOrigin(w, server, url, init);
      assert [] + [Request(url, init)] == [Request(url, init)];
      HopsChain(w, server, 0, url, init, []);
    }
    hide Hops, Ends, AllChained, HasCredentials;
  }
}
