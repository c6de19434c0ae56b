/** What a verdict means: every result that leaves the verifier is accounted for by a trail of positions in the run,
    one per handler stretch, from the opening of its session to the reading of its credential's status. */
module VerifierVerdicts {
  import opened Basics
  import opened VerifierModel
  import opened VerifierTheorems
  import S = SdJwt
  import D = Mdoc
  import Q = Dcql
  import L = StatusLists

  // -------------------------------------------------------------- consistency

  /** The verdict's flag is the absence of findings. */
  predicate Consistent(v: Verdict) { v.valid <==> v.errors == [] }

  lemma SdJwtConsistent(cfg: Config, token: string, key: Json, nonce: string, t: int)
    ensures var r := S.Verify(cfg.suite, token, key, cfg.verifierUrl, nonce, t); r.valid <==> r.errors == []
  {
  }

  lemma MdocConsistent(cfg: Config, token: string, key: Json, nonce: string, t: int)
    ensures var r := D.Verify(cfg.codecs, token, key, cfg.verifierUrl, nonce, t); r.Some? ==> (r.value.valid <==> r.value.errors == [])
  {
    hide D.Scan, D.OpenMso, D.OpenDeviceAuth, D.DeviceErrors, D.ValidityErrors;
  }

  lemma CheckedIsConsistent(cfg: Config, mdoc: bool, token: string, key: Json, nonce: string, now: int)
    ensures var c := Check(cfg, mdoc, token, key, nonce, now); c.Some? ==> Consistent(c.value.verdict)
  {
    SdJwtConsistent(cfg, token, key, nonce, now / 1000);
    MdocConsistent(cfg, token, key, nonce, now / 1000);
    hide S.Verify, D.Verify, SdJwtStatus, MdocStatus;
  }

  // -------------------------------------------------------------------- trails

  /** Positions in a log: the session was opened, a presentation posted to it, the issuer's key resolved, the
      presentation verified, the status list fetched, the status read. */
  datatype Trail = Trail(created: nat, posted: nat, trusted: nat, verified: nat, fetched: nat, read: nat)

  /** Position `o` opened this session. */
  ghost predicate OpenedAs(log: seq<Entry>, o: nat, p: Session) {
    && o < |log| && log[o].event.PostRequest? && log[o].response.RequestCreated?
    && log[o].event.mdoc == p.mdoc && log[o].event.newNonce == p.nonce && log[o].event.newToken == p.resultToken && log[o].now == p.createdAt
  }

  /** The machine did something for handler `q` here: let it set out, or ran a stretch of it. */
  predicate Served(x: Entry, q: nat) {
    && x.response != NoSuchHandler
    && match x.event
       case PostResponse(r, _, _) => r == q
       case TrustResolved(r, _) => r == q
       case PresentationVerified(r) => r == q
       case StatusFetched(r, _) => r == q
       case StatusRead(r) => r == q
       case _ => false
  }

  /** Between these two positions handler `q` was served at these positions only. */
  ghost predicate ServedOnlyAt(log: seq<Entry>, q: nat, from: int, upto: int, positions: set<int>) {
    forall k :: from < k < upto && 0 <= k < |log| && Served(log[k], q) ==> k in positions
  }

  /** Handler `q` set out with a presentation posted to the session, in its lifetime. */
  ghost predicate Began(log: seq<Entry>, q: nat, h: Trail) {
    && h.created < h.posted < |log| && log[h.created].event.PostRequest? && log[h.created].response.RequestCreated?
    && log[h.posted].event.PostResponse? && log[h.posted].event.request == q && log[h.posted].event.id == log[h.created].event.newId
    && log[h.posted].response == Awaiting && log[h.posted].now - log[h.created].now <= 300_000
  }

  ghost function IssuerNamed(cfg: Config, log: seq<Entry>, q: nat, h: Trail): Option<Option<string>>
    requires Began(log, q, h)
  {
    NamedIssuer(cfg, log[h.created].event.mdoc, log[h.posted].event.vpToken)
  }

  /** The key was resolved for a trusted issuer that the presentation names, and the nonce went to verification. */
  ghost predicate GotKey(cfg: Config, log: seq<Entry>, q: nat, h: Trail) {
    && Began(log, q, h) && h.posted < h.trusted < |log|
    && log[h.trusted].event.TrustResolved? && log[h.trusted].event.request == q && log[h.trusted].event.key.Key?
    && log[h.trusted].response == VerifyingNonce(log[h.created].event.newNonce)
    && IssuerNamed(cfg, log, q, h).Some? && IssuerNamed(cfg, log, q, h).value.Some? && IssuerNamed(cfg, log, q, h).value.value in cfg.trusted
  }

  ghost function IssuerOf(cfg: Config, log: seq<Entry>, q: nat, h: Trail): string
    requires GotKey(cfg, log, q, h)
  {
    IssuerNamed(cfg, log, q, h).value.value
  }

  ghost function KeyOf(cfg: Config, log: seq<Entry>, q: nat, h: Trail): Json
    requires GotKey(cfg, log, q, h)
  {
    log[h.trusted].event.key.jwk
  }

  /** What verification made of the posted presentation, under that key, for this session's nonce, at the time of
      the stretch that verified it. */
  ghost function CheckOf(cfg: Config, log: seq<Entry>, q: nat, h: Trail): Option<Checked>
    requires GotKey(cfg, log, q, h) && h.verified < |log|
  {
    Check(cfg, log[h.created].event.mdoc, log[h.posted].event.vpToken, KeyOf(cfg, log, q, h), log[h.created].event.newNonce, log[h.verified].now)
  }

  ghost predicate WasChecked(cfg: Config, log: seq<Entry>, q: nat, h: Trail) {
    && GotKey(cfg, log, q, h) && h.trusted < h.verified < |log| && log[h.verified].event == PresentationVerified(q)
    && CheckOf(cfg, log, q, h).Some?
  }

  /** The handler fetched the list that the valid credential refers to. */
  ghost predicate WasFetched(cfg: Config, log: seq<Entry>, q: nat, h: Trail) {
    && WasChecked(cfg, log, q, h)
    && var c := CheckOf(cfg, log, q, h).value;
       && c.verdict.valid && c.status.Some? && c.status.value.uri.Some? && log[h.verified].response == Awaiting
       && h.verified < h.fetched < |log| && log[h.fetched].event.StatusFetched? && log[h.fetched].event.request == q
       && log[h.fetched].event.text.Some? && log[h.fetched].response == Awaiting
  }

  /** The status that the fetched list holds for this credential, read under the issuer's key at the time of the
      stretch that read it. */
  ghost function ReadOf(cfg: Config, log: seq<Entry>, q: nat, h: Trail): L.StatusResult
    requires WasFetched(cfg, log, q, h) && h.read < |log|
  {
    var status := CheckOf(cfg, log, q, h).value.status.value;
    L.ReadStatus(cfg.suite, cfg.lists, log[h.fetched].event.text.value, status.idx, KeyOf(cfg, log, q, h), IssuerOf(cfg, log, q, h),
                 status.uri.value, log[h.read].now / 1000)
  }

  ghost predicate WasRead(cfg: Config, log: seq<Entry>, q: nat, h: Trail) {
    && WasFetched(cfg, log, q, h) && h.fetched < h.read < |log| && log[h.read].event == StatusRead(q)
    && ReadOf(cfg, log, q, h).Status?
  }

  /** The handler ended at the position `end` by sending this verdict: right after verification, or after reading the
      status; and since it set out it was served at no other positions than those of the trail. */
  ghost predicate Concluded(cfg: Config, log: seq<Entry>, q: nat, h: Trail, end: nat, v: Verdict) {
    && WasChecked(cfg, log, q, h) && end < |log| && log[end].response == Result(v)
    && var c := CheckOf(cfg, log, q, h).value;
       var paths := Paths(cfg, log[h.created].event.mdoc);
       || (end == h.verified && (!c.verdict.valid || c.status.None?) && v == WithDcql(c.verdict, paths)
           && ServedOnlyAt(log, q, h.posted, end, {h.trusted}))
       || (end == h.read && WasRead(cfg, log, q, h) && v == WithDcql(WithStatus(c.verdict, ReadOf(cfg, log, q, h).bit), paths)
           && ServedOnlyAt(log, q, h.posted, end, {h.trusted, h.verified, h.fetched}))
  }

  /** What such a verdict says: valid exactly when it lists no error; and exactly when the presentation verified, the
      status reads VALID if the credential refers to one, and no requested path is missing of what it discloses. */
  ghost predicate SaysSo(cfg: Config, log: seq<Entry>, q: nat, h: Trail, end: nat, v: Verdict)
    requires WasChecked(cfg, log, q, h)
  {
    var c := CheckOf(cfg, log, q, h).value;
    && v.disclosed == c.verdict.disclosed
    && (v.valid <==> v.errors == [])
    && (v.valid <==>
          && c.verdict.valid && Q.Missing(Paths(cfg, log[h.created].event.mdoc), v.disclosed) == []
          && (c.status.Some? ==> end == h.read && WasRead(cfg, log, q, h) && ReadOf(cfg, log, q, h) == L.Status(L.STATUS_VALID)))
  }

  lemma ReadsOneBit(cfg: Config, log: seq<Entry>, q: nat, h: Trail)
    requires WasRead(cfg, log, q, h)
    ensures var read := ReadOf(cfg, log, q, h); read.bit == L.STATUS_VALID || read.bit == L.STATUS_INVALID
  {
  }

  lemma ConcludedSaysSo(cfg: Config, log: seq<Entry>, q: nat, h: Trail, end: nat, v: Verdict)
    requires Concluded(cfg, log, q, h, end, v)
    ensures SaysSo(cfg, log, q, h, end, v)
  {
    var c := CheckOf(cfg, log, q, h).value;
    assert Consistent(c.verdict) by {
      CheckedIsConsistent(cfg, log[h.created].event.mdoc, log[h.posted].event.vpToken, KeyOf(cfg, log, q, h), log[h.created].event.newNonce, log[h.verified].now);
    }
    if WasRead(cfg, log, q, h) { ReadsOneBit(cfg, log, q, h); }
    hide WasChecked, CheckOf, ReadOf, GotKey, Q.Missing, Paths;
  }

  // -------------------------------------------------------------- the invariant

  /** The positions of a trail at which a handler suspended at this stage has been served since it set out. */
  function StagesOf(stage: Stage, h: Trail): set<int> {
    match stage
    case ResolvingTrust(_, _) => {}
    case Verifying(_, _, _) => {h.trusted}
    case FetchingStatus(_, _, _, _, _) => {h.trusted, h.verified}
    case ReadingStatus(_, _, _, _, _, _) => {h.trusted, h.verified, h.fetched}
  }

  /** How far the trail of a suspended handler reaches. */
  ghost predicate Reaches(cfg: Config, log: seq<Entry>, p: Session, q: nat, stage: Stage, h: Trail) {
    && OpenedAs(log, h.created, p) && Began(log, q, h) && ServedOnlyAt(log, q, h.posted, |log|, StagesOf(stage, h))
    && match stage
       case ResolvingTrust(token, named) => token == log[h.posted].event.vpToken && IssuerNamed(cfg, log, q, h) == Some(named)
       case Verifying(token, issuer, key) => GotKey(cfg, log, q, h) && token == log[h.posted].event.vpToken && Under(cfg, log, q, h, issuer, key)
       case FetchingStatus(issuer, key, v, uri, idx) =>
         WasChecked(cfg, log, q, h) && Under(cfg, log, q, h, issuer, key) && v.valid && log[h.verified].response == Awaiting
         && CheckOf(cfg, log, q, h) == Some(Checked(v, Some(StatusRef(Some(uri), idx))))
       case ReadingStatus(issuer, key, v, uri, idx, listToken) =>
         WasFetched(cfg, log, q, h) && Under(cfg, log, q, h, issuer, key)
         && CheckOf(cfg, log, q, h) == Some(Checked(v, Some(StatusRef(Some(uri), idx)))) && log[h.fetched].event.text == Some(listToken)
  }

  ghost predicate Under(cfg: Config, log: seq<Entry>, q: nat, h: Trail, issuer: string, key: Json)
    requires GotKey(cfg, log, q, h)
  {
    issuer == IssuerOf(cfg, log, q, h) && key == KeyOf(cfg, log, q, h)
  }

  ghost predicate HandlersReach(cfg: Config, s: State, log: seq<Entry>)
    requires Wf(s)
  {
    forall q :: q in s.flights ==> exists h :: Reaches(cfg, log, s.heap[s.flights[q].session], q, s.flights[q].stage, h)
  }

  ghost predicate StoredAs(log: seq<Entry>, o: nat, id: string, p: Session) {
    OpenedAs(log, o, p) && log[o].event.newId == id
  }

  ghost predicate SessionsOpened(s: State, log: seq<Entry>)
    requires Wf(s)
  {
    forall id :: id in s.sessions ==> exists o: nat :: StoredAs(log, o, id, s.heap[s.sessions[id]])
  }

  ghost predicate Accounted(cfg: Config, log: seq<Entry>, p: Session, q: nat, h: Trail, end: nat, v: Verdict) {
    OpenedAs(log, h.created, p) && Concluded(cfg, log, q, h, end, v)
  }

  ghost predicate ResultsAccounted(cfg: Config, s: State, log: seq<Entry>)
    requires Wf(s)
  {
    forall r :: r in s.heap && s.heap[r].result.Some? ==> exists q: nat, h, end: nat :: Accounted(cfg, log, s.heap[r], q, h, end, s.heap[r].result.value)
  }

  ghost predicate StateSound(cfg: Config, s: State, log: seq<Entry>)
    requires Wf(s)
  {
    HandlersReach(cfg, s, log) && SessionsOpened(s, log) && ResultsAccounted(cfg, s, log)
  }

  /** The same session, whatever has been consumed or stored in it. */
  predicate SameSession(p: Session, p': Session) {
    p'.mdoc == p.mdoc && p'.nonce == p.nonce && p'.resultToken == p.resultToken && p'.createdAt == p.createdAt
  }

  // Trails survive a longer log.

  lemma BeganStill(cfg: Config, log: seq<Entry>, x: Entry, q: nat, h: Trail)
    requires Began(log, q, h)
    ensures Began(log + [x], q, h) && IssuerNamed(cfg, log + [x], q, h) == IssuerNamed(cfg, log, q, h)
    ensures (log + [x])[h.posted] == log[h.posted] && (log + [x])[h.created] == log[h.created]
  {
    hide NamedIssuer;
  }

  lemma KeyStill(cfg: Config, log: seq<Entry>, x: Entry, q: nat, h: Trail)
    requires GotKey(cfg, log, q, h)
    ensures GotKey(cfg, log + [x], q, h)
    ensures IssuerOf(cfg, log + [x], q, h) == IssuerOf(cfg, log, q, h) && KeyOf(cfg, log + [x], q, h) == KeyOf(cfg, log, q, h)
  {
    BeganStill(cfg, log, x, q, h);
    hide IssuerNamed;
  }

  lemma CheckedStill(cfg: Config, log: seq<Entry>, x: Entry, q: nat, h: Trail)
    requires WasChecked(cfg, log, q, h)
    ensures WasChecked(cfg, log + [x], q, h) && CheckOf(cfg, log + [x], q, h) == CheckOf(cfg, log, q, h)
    ensures (log + [x])[h.verified] == log[h.verified]
  {
    KeyStill(cfg, log, x, q, h);
    BeganStill(cfg, log, x, q, h);
    hide Check, KeyOf, Began;
  }

  lemma FetchedStill(cfg: Config, log: seq<Entry>, x: Entry, q: nat, h: Trail)
    requires WasFetched(cfg, log, q, h)
    ensures WasFetched(cfg, log + [x], q, h) && (log + [x])[h.fetched] == log[h.fetched]
  {
    CheckedStill(cfg, log, x, q, h);
    hide WasChecked, CheckOf;
  }

  lemma ReadStill(cfg: Config, log: seq<Entry>, x: Entry, q: nat, h: Trail)
    requires WasRead(cfg, log, q, h)
    ensures WasRead(cfg, log + [x], q, h) && ReadOf(cfg, log + [x], q, h) == ReadOf(cfg, log, q, h)
  {
    FetchedStill(cfg, log, x, q, h);
    CheckedStill(cfg, log, x, q, h);
    KeyStill(cfg, log, x, q, h);
    hide WasFetched, CheckOf, KeyOf, IssuerOf, L.ReadStatus;
  }

  lemma ServedStill(log: seq<Entry>, x: Entry, q: nat, from: int, upto: int, positions: set<int>)
    requires ServedOnlyAt(log, q, from, upto, positions) && upto <= |log|
    ensures ServedOnlyAt(log + [x], q, from, upto, positions)
  {
    assert forall k :: 0 <= k < |log| ==> (log + [x])[k] == log[k];
    hide Served;
  }

  /** One more position, which is no stretch of this handler or is now among those listed. */
  lemma ServedOneMore(log: seq<Entry>, x: Entry, q: nat, from: int, positions: set<int>, positions': set<int>)
    requires ServedOnlyAt(log, q, from, |log|, positions) && positions <= positions'
    requires Served(x, q) ==> |log| in positions'
    ensures ServedOnlyAt(log + [x], q, from, |log| + 1, positions')
  {
    assert forall k :: 0 <= k < |log| ==> (log + [x])[k] == log[k];
    hide Served;
  }

  lemma ConcludedStill(cfg: Config, log: seq<Entry>, x: Entry, q: nat, h: Trail, end: nat, v: Verdict)
    requires Concluded(cfg, log, q, h, end, v)
    ensures Concluded(cfg, log + [x], q, h, end, v)
  {
    CheckedStill(cfg, log, x, q, h);
    if WasRead(cfg, log, q, h) { ReadStill(cfg, log, x, q, h); }
    if ServedOnlyAt(log, q, h.posted, end, {h.trusted}) { ServedStill(log, x, q, h.posted, end, {h.trusted}); }
    if ServedOnlyAt(log, q, h.posted, end, {h.trusted, h.verified, h.fetched}) {
      ServedStill(log, x, q, h.posted, end, {h.trusted, h.verified, h.fetched});
    }
    assert (log + [x])[h.created] == log[h.created];
    hide ServedOnlyAt, WasRead, CheckOf, ReadOf, WithDcql, WithStatus, Paths;
  }

  lemma ReachesStill(cfg: Config, log: seq<Entry>, x: Entry, p: Session, p': Session, q: nat, stage: Stage, h: Trail)
    requires Reaches(cfg, log, p, q, stage, h) && SameSession(p, p') && !Served(x, q)
    ensures Reaches(cfg, log + [x], p', q, stage, h)
  {
    ServedOneMore(log, x, q, h.posted, StagesOf(stage, h), StagesOf(stage, h));
    BeganStill(cfg, log, x, q, h);
    if !stage.ResolvingTrust? { KeyStill(cfg, log, x, q, h); }
    if stage.FetchingStatus? || stage.ReadingStatus? { CheckedStill(cfg, log, x, q, h); }
    if stage.ReadingStatus? { FetchedStill(cfg, log, x, q, h); }
    hide ServedOnlyAt, StagesOf, Began, GotKey, WasChecked, WasFetched, IssuerNamed, CheckOf, IssuerOf, KeyOf;
  }

  lemma AccountedStill(cfg: Config, log: seq<Entry>, x: Entry, p: Session, p': Session, q: nat, h: Trail, end: nat, v: Verdict)
    requires Accounted(cfg, log, p, q, h, end, v) && SameSession(p, p')
    ensures Accounted(cfg, log + [x], p', q, h, end, v)
  {
    ConcludedStill(cfg, log, x, q, h, end, v);
    hide Concluded;
  }

  // Each handler stretch takes the trail one position on.

  lemma LaunchBegins(cfg: Config, s: State, log: seq<Entry>, now: int, request: nat, id: string, token: string)
    requires Wf(s) && SessionsOpened(s, log)
    ensures var (e, response) := DecideResponse(cfg, s, now, request, id, token);
            e.Launch? ==>
              && e.ref in s.heap && e.request == request
              && exists h :: Reaches(cfg, log + [Entry(now, PostResponse(request, id, token), response)], s.heap[e.ref], request, e.flight.stage, h)
  {
    var (e, response) := DecideResponse(cfg, s, now, request, id, token);
    hide NamedIssuer;
    if e.Launch? {
      var log' := log + [Entry(now, PostResponse(request, id, token), response)];
      var o: nat :| StoredAs(log, o, id, s.heap[s.sessions[id]]);
      assert log'[o] == log[o] && log'[|log|].event == PostResponse(request, id, token);
      assert Reaches(cfg, log', s.heap[e.ref], request, e.flight.stage, Trail(o, |log|, 0, 0, 0, 0));
    }
  }

  lemma TrustAdvances(cfg: Config, s: State, log: seq<Entry>, now: int, q: nat, key: KeyResult, h: Trail)
    requires Wf(s) && q in s.flights && Reaches(cfg, log, s.heap[s.flights[q].session], q, s.flights[q].stage, h)
    ensures var (e, response) := DecideTrust(cfg, s, q, key);
            e.SetFlight? ==>
              Reaches(cfg, log + [Entry(now, TrustResolved(q, key), response)], s.heap[s.flights[q].session], q, e.flight.stage, h.(trusted := |log|))
  {
    var (e, response) := DecideTrust(cfg, s, q, key);
    if e.SetFlight? {
      var x := Entry(now, TrustResolved(q, key), response);
      var h' := h.(trusted := |log|);
      BeganStill(cfg, log, x, q, h);
      ServedOneMore(log, x, q, h.posted, {}, {h'.trusted});
      hide NamedIssuer, ServedOnlyAt;
      assert (log + [x])[|log|] == x;
      assert GotKey(cfg, log + [x], q, h');
    }
  }

  lemma CheckAdvances(cfg: Config, s: State, log: seq<Entry>, now: int, q: nat, h: Trail)
    requires Wf(s) && q in s.flights && s.flights[q].stage.Verifying? && Reaches(cfg, log, s.heap[s.flights[q].session], q, s.flights[q].stage, h)
    ensures var f := s.flights[q];
            var (p, x) := (s.heap[f.session], Entry(now, PresentationVerified(q), DecideVerified(cfg, s, now, q).1));
            var h' := h.(verified := |log|);
            && GotKey(cfg, log + [x], q, h') && Under(cfg, log + [x], q, h', f.stage.issuer, f.stage.key) && OpenedAs(log + [x], h'.created, p)
            && CheckOf(cfg, log + [x], q, h') == Check(cfg, p.mdoc, f.stage.token, f.stage.key, p.nonce, now)
            && (CheckOf(cfg, log + [x], q, h').Some? ==> WasChecked(cfg, log + [x], q, h'))
            && ServedOnlyAt(log + [x], q, h'.posted, |log|, {h'.trusted}) && ServedOnlyAt(log + [x], q, h'.posted, |log| + 1, {h'.trusted, h'.verified})
  {
    var x := Entry(now, PresentationVerified(q), DecideVerified(cfg, s, now, q).1);
    KeyStill(cfg, log, x, q, h);
    ServedStill(log, x, q, h.posted, |log|, {h.trusted});
    ServedOneMore(log, x, q, h.posted, {h.trusted}, {h.trusted, |log|});
    hide ServedOnlyAt, DecideVerified, Check, NamedIssuer;
    assert (log + [x])[|log|] == x;
    assert (log + [x])[h.created] == log[h.created] && (log + [x])[h.posted] == log[h.posted] && (log + [x])[h.trusted] == log[h.trusted];
  }

  /** What the verification stretch does with the outcome of the check. */
  lemma VerifiedEffects(cfg: Config, s: State, now: int, q: nat)
    requires Wf(s) && q in s.flights && s.flights[q].stage.Verifying?
    ensures var f := s.flights[q];
            var p := s.heap[f.session];
            var c := Check(cfg, p.mdoc, f.stage.token, f.stage.key, p.nonce, now);
            var (e, response) := DecideVerified(cfg, s, now, q);
            && !e.Launch?
            && (e.SetFlight? ==>
                  && response == Awaiting && c.Some? && c.value.verdict.valid && c.value.status.Some? && c.value.status.value.uri.Some? && e.request == q
                  && e.flight == Flight(f.session, FetchingStatus(f.stage.issuer, f.stage.key, c.value.verdict, c.value.status.value.uri.value, c.value.status.value.idx)))
            && (e.Finish? ==>
                  && c.Some? && (!c.value.verdict.valid || c.value.status.None?) && e.request == q && e.ref == f.session
                  && e.verdict == WithDcql(c.value.verdict, Paths(cfg, p.mdoc)) && response == Result(e.verdict))
  {
    hide Check, WithDcql, Paths;
  }

  lemma VerifiedAdvances(cfg: Config, s: State, log: seq<Entry>, now: int, q: nat, h: Trail)
    requires Wf(s) && q in s.flights && s.flights[q].stage.Verifying? && Reaches(cfg, log, s.heap[s.flights[q].session], q, s.flights[q].stage, h)
    ensures var (e, response) := DecideVerified(cfg, s, now, q);
            var log', p, h' := log + [Entry(now, PresentationVerified(q), response)], s.heap[s.flights[q].session], h.(verified := |log|);
            && (e.SetFlight? ==> Reaches(cfg, log', p, q, e.flight.stage, h'))
            && (e.Finish? ==> e.ref == s.flights[q].session && Accounted(cfg, log', p, q, h', |log|, e.verdict))
  {
    CheckAdvances(cfg, s, log, now, q, h);
    VerifiedEffects(cfg, s, now, q);
    hide ServedOnlyAt, DecideVerified, Check, CheckOf, WithDcql, Paths, GotKey, Wf;
    var (e, response) := DecideVerified(cfg, s, now, q);
    var log', h' := log + [Entry(now, PresentationVerified(q), response)], h.(verified := |log|);
    assert log'[|log|].response == response;
    if e.SetFlight? {
      var status := CheckOf(cfg, log', q, h').value.status.value;
      assert status == StatusRef(Some(status.uri.value), status.idx);
    }
  }

  lemma FetchEffects(s: State, q: nat, text: Option<string>)
    requires q in s.flights
    ensures var f := s.flights[q].stage;
            var (e, response) := DecideFetched(s, q, text);
            e.SetFlight? ==>
              && f.FetchingStatus? && text.Some? && response == Awaiting
              && e.flight.stage == ReadingStatus(f.issuer, f.key, f.verdict, f.uri, f.idx, text.value)
  {
  }

  lemma FetchAdvances(cfg: Config, s: State, log: seq<Entry>, now: int, q: nat, text: Option<string>, h: Trail)
    requires Wf(s) && q in s.flights && Reaches(cfg, log, s.heap[s.flights[q].session], q, s.flights[q].stage, h)
    ensures var (e, response) := DecideFetched(s, q, text);
            e.SetFlight? ==>
              Reaches(cfg, log + [Entry(now, StatusFetched(q, text), response)], s.heap[s.flights[q].session], q, e.flight.stage, h.(fetched := |log|))
  {
    FetchEffects(s, q, text);
    hide Wf, DecideFetched, ServedOnlyAt, Check, NamedIssuer, Served, OpenedAs;
    var (e, response) := DecideFetched(s, q, text);
    if e.SetFlight? {
      var x := Entry(now, StatusFetched(q, text), response);
      var h' := h.(fetched := |log|);
      CheckedStill(cfg, log, x, q, h);
      KeyStill(cfg, log, x, q, h);
      ServedOneMore(log, x, q, h.posted, {h.trusted, h.verified}, {h.trusted, h.verified, |log|});
      SameTrailButFetched(cfg, log + [x], q, h, |log|);
      assert (log + [x])[|log|] == x && (log + [x])[h.created] == log[h.created] && (log + [x])[h.posted] == log[h.posted];
      hide CheckOf, KeyOf, IssuerOf, GotKey;
      assert WasFetched(cfg, log + [x], q, h');
    }
  }

  /** Nothing up to the check depends on the position of the fetch. */
  lemma SameTrailButFetched(cfg: Config, log: seq<Entry>, q: nat, h: Trail, fetched: nat)
    requires WasChecked(cfg, log, q, h)
    ensures var h' := h.(fetched := fetched);
            && WasChecked(cfg, log, q, h') && CheckOf(cfg, log, q, h') == CheckOf(cfg, log, q, h)
            && KeyOf(cfg, log, q, h') == KeyOf(cfg, log, q, h) && IssuerOf(cfg, log, q, h') == IssuerOf(cfg, log, q, h)
  {
    hide Check, NamedIssuer;
  }

  lemma ReadEffects(cfg: Config, s: State, now: int, q: nat)
    requires Wf(s) && q in s.flights && s.flights[q].stage.ReadingStatus?
    ensures var f := s.flights[q].stage;
            var read := L.ReadStatus(cfg.suite, cfg.lists, f.listToken, f.idx, f.key, f.issuer, f.uri, now / 1000);
            var (e, response) := DecideRead(cfg, s, now, q);
            && !e.Launch? && !e.SetFlight?
            && (e.Finish? ==>
                  && read.Status? && e.request == q && e.ref == s.flights[q].session && response == Result(e.verdict)
                  && e.verdict == WithDcql(WithStatus(f.verdict, read.bit), Paths(cfg, s.heap[s.flights[q].session].mdoc)))
  {
    hide L.ReadStatus, WithDcql, WithStatus, Paths;
  }

  lemma ReadAdvances(cfg: Config, s: State, log: seq<Entry>, now: int, q: nat, h: Trail)
    requires Wf(s) && q in s.flights && s.flights[q].stage.ReadingStatus? && Reaches(cfg, log, s.heap[s.flights[q].session], q, s.flights[q].stage, h)
    ensures var (e, response) := DecideRead(cfg, s, now, q);
            e.Finish? ==>
              && e.ref == s.flights[q].session
              && Accounted(cfg, log + [Entry(now, StatusRead(q), response)], s.heap[s.flights[q].session], q, h.(read := |log|), |log|, e.verdict)
  {
    ReadEffects(cfg, s, now, q);
    var (e, response) := DecideRead(cfg, s, now, q);
    var x := Entry(now, StatusRead(q), response);
    var h' := h.(read := |log|);
    FetchedStill(cfg, log, x, q, h);
    CheckedStill(cfg, log, x, q, h);
    KeyStill(cfg, log, x, q, h);
    assert (log + [x])[|log|] == x && (log + [x])[h.created] == log[h.created];
    SameTrailButRead(cfg, log + [x], q, h, |log|);
    ServedStill(log, x, q, h.posted, |log|, {h.trusted, h.verified, h.fetched});
    hide ServedOnlyAt, DecideRead, WasFetched, CheckOf, KeyOf, IssuerOf, L.ReadStatus, WithDcql, WithStatus, Paths, Wf;
    if e.Finish? {
      assert WasRead(cfg, log + [x], q, h');
    }
  }

  /** Nothing up to the fetch depends on the last position. */
  lemma SameTrailButRead(cfg: Config, log: seq<Entry>, q: nat, h: Trail, read: nat)
    requires WasFetched(cfg, log, q, h)
    ensures var h' := h.(read := read);
            && WasFetched(cfg, log, q, h') && WasChecked(cfg, log, q, h') && CheckOf(cfg, log, q, h') == CheckOf(cfg, log, q, h)
            && KeyOf(cfg, log, q, h') == KeyOf(cfg, log, q, h) && IssuerOf(cfg, log, q, h') == IssuerOf(cfg, log, q, h)
  {
    hide Check, NamedIssuer;
  }

  /** What a step may put in the heap, among the sessions and among the handlers. */
  ghost predicate StepSound(cfg: Config, s: State, log': seq<Entry>, e: Effect)
    requires Wf(s)
  {
    && (e.AddSession? ==> exists o: nat :: StoredAs(log', o, e.id, e.session))
    && (e.Launch? ==> e.ref in s.heap && e.flight.session == e.ref && exists h :: Reaches(cfg, log', s.heap[e.ref], e.request, e.flight.stage, h))
    && (e.SetFlight? ==> e.flight.session in s.heap && exists h :: Reaches(cfg, log', s.heap[e.flight.session], e.request, e.flight.stage, h))
    && (e.Finish? ==> e.ref in s.heap && exists q: nat, h, end: nat :: Accounted(cfg, log', s.heap[e.ref], q, h, end, e.verdict))
  }

  /** Only these events have effects that start, advance or end a handler, or open a session. */
  lemma EffectsOfEvents(cfg: Config, s: State, now: int, event: Event)
    requires Wf(s)
    ensures var (e, response) := Decide(cfg, s, now, event);
            && (e.AddSession? ==> event.PostRequest? && response.RequestCreated? && e.id == event.newId
                                  && e.session == Session(event.newNonce, event.mdoc, now, false, event.newToken, None))
            && (e.Launch? ==> event.PostResponse? && e.request == event.request && e.flight.session == e.ref)
            && (e.SetFlight? ==> (event.TrustResolved? || event.PresentationVerified? || event.StatusFetched?) && e.request == event.request
                                 && event.request in s.flights && e.flight.session == s.flights[event.request].session)
            && (e.Finish? ==> (event.PresentationVerified? || event.StatusRead?) && event.request in s.flights
                              && e.ref == s.flights[event.request].session)
            && (e.SetFlight? || e.Finish? ==>
                  (event.PresentationVerified? ==> s.flights[event.request].stage.Verifying?)
                  && (event.StatusRead? ==> s.flights[event.request].stage.ReadingStatus?))
  {
    hide Check, WithDcql, WithStatus, L.ReadStatus, NamedIssuer, FindToken;
  }

  lemma StepsAreSound(cfg: Config, s: State, log: seq<Entry>, now: int, event: Event)
    requires Wf(s) && StateSound(cfg, s, log)
    ensures var (e, response) := Decide(cfg, s, now, event); StepSound(cfg, s, log + [Entry(now, event, response)], e)
  {
    var (e, response) := Decide(cfg, s, now, event);
    var x := Entry(now, event, response);
    var log' := log + [x];
    EffectsOfEvents(cfg, s, now, event);
    if e.AddSession? {
      assert log'[|log|] == x;
      assert StoredAs(log', |log|, e.id, e.session);
    } else if e.Launch? {
      LaunchBegins(cfg, s, log, now, event.request, event.id, event.vpToken);
      hide DecideResponse, Reaches, HandlersReach, SessionsOpened, ResultsAccounted;
    } else if e.SetFlight? || e.Finish? {
      HandlerSteps(cfg, s, log, now, event);
      hide *;
    }
  }

  lemma HandlerSteps(cfg: Config, s: State, log: seq<Entry>, now: int, event: Event)
    requires Wf(s) && HandlersReach(cfg, s, log)
    requires var e := Decide(cfg, s, now, event).0; e.SetFlight? || e.Finish?
    ensures var (e, response) := Decide(cfg, s, now, event); StepSound(cfg, s, log + [Entry(now, event, response)], e)
  {
    EffectsOfEvents(cfg, s, now, event);
    var q := event.request;
    var h :| Reaches(cfg, log, s.heap[s.flights[q].session], q, s.flights[q].stage, h);
    hide Reaches, Accounted, DecideTrust, DecideVerified, DecideFetched, DecideRead, HandlersReach;
    match event {
      case TrustResolved(_, key) => TrustAdvances(cfg, s, log, now, q, key, h);
      case PresentationVerified(_) => VerifiedAdvances(cfg, s, log, now, q, h);
      case StatusFetched(_, text) => FetchAdvances(cfg, s, log, now, q, text, h);
      case StatusRead(_) => ReadAdvances(cfg, s, log, now, q, h);
    }
  }

  // ---------------------------------------------------------------- every run

  /** Where a handler, a session or a result comes from. */
  lemma After(s: State, e: Effect)
    requires Wf(s) && Grounded(s, e)
    ensures var s' := Perform(s, e);
            && (forall q :: q in s'.flights ==>
                  if (e.Launch? || e.SetFlight?) && q == e.request then s'.flights[q] == e.flight
                  else q in s.flights && s'.flights[q] == s.flights[q])
            && (e.EndFlight? || e.Finish? ==> e.request !in s'.flights)
            && (forall r :: r in s'.heap && s'.heap[r].result.Some? ==>
                  || (r in s.heap && s'.heap[r].result == s.heap[r].result)
                  || (e.Finish? && r == e.ref && s'.heap[r].result == Some(e.verdict)))
  {
    HeapAndFlightsAfter(s, e);
    hide Perform;
  }

  lemma SessionsAfter(s: State, e: Effect)
    requires Wf(s)
    ensures var s' := Perform(s, e);
            forall id :: id in s'.sessions ==>
              || (id in s.sessions && s'.sessions[id] == s.sessions[id])
              || (e.AddSession? && id == e.id && s'.sessions[id] == s.nextRef && s.nextRef in s'.heap && s'.heap[s.nextRef] == e.session)
  {
    hide Expired, LiveOnly, Without;
  }

  lemma HandlersStillReach(cfg: Config, s: State, log: seq<Entry>, x: Entry, e: Effect)
    requires Wf(s) && Grounded(s, e) && HandlersReach(cfg, s, log) && StepSound(cfg, s, log + [x], e) && Wf(Perform(s, e))
    requires forall r :: r in s.heap ==> r in Perform(s, e).heap && SameSession(s.heap[r], Perform(s, e).heap[r])
    requires forall q :: q in s.flights && Served(x, q) ==> (e.SetFlight? || e.EndFlight? || e.Finish?) && e.request == q
    ensures HandlersReach(cfg, Perform(s, e), log + [x])
  {
    var s', log' := Perform(s, e), log + [x];
    After(s, e);
    hide Served, Perform, Grounded, Reaches, Accounted;
    forall q | q in s'.flights
      ensures exists h :: Reaches(cfg, log', s'.heap[s'.flights[q].session], q, s'.flights[q].stage, h)
    {
      if !((e.Launch? || e.SetFlight?) && q == e.request) {
        var h :| Reaches(cfg, log, s.heap[s.flights[q].session], q, s.flights[q].stage, h);
        ReachesStill(cfg, log, x, s.heap[s.flights[q].session], s'.heap[s.flights[q].session], q, s.flights[q].stage, h);
      } else {
        var r := e.flight.session;
        var h :| Reaches(cfg, log', s.heap[r], q, e.flight.stage, h);
        SameReaches(cfg, log', s.heap[r], s'.heap[r], q, e.flight.stage, h);
      }
    }
  }

  /** A served handler moves on or ends. */
  lemma ServedMovesOn(cfg: Config, s: State, now: int, event: Event, q: nat)
    requires Wf(s) && q in s.flights
    ensures var (e, response) := Decide(cfg, s, now, event);
            Served(Entry(now, event, response), q) ==> (e.SetFlight? || e.EndFlight? || e.Finish?) && e.request == q
  {
    hide Check, WithDcql, WithStatus, L.ReadStatus, NamedIssuer, FindToken;
  }

  lemma SameReaches(cfg: Config, log: seq<Entry>, p: Session, p': Session, q: nat, stage: Stage, h: Trail)
    requires Reaches(cfg, log, p, q, stage, h) && SameSession(p, p')
    ensures Reaches(cfg, log, p', q, stage, h)
  {
  }

  lemma SessionsStillOpened(cfg: Config, s: State, log: seq<Entry>, x: Entry, e: Effect)
    requires Wf(s) && SessionsOpened(s, log) && StepSound(cfg, s, log + [x], e) && Wf(Perform(s, e))
    requires forall r :: r in s.heap ==> r in Perform(s, e).heap && SameSession(s.heap[r], Perform(s, e).heap[r])
    ensures SessionsOpened(Perform(s, e), log + [x])
  {
    var s', log' := Perform(s, e), log + [x];
    SessionsAfter(s, e);
    hide Perform, Reaches, Accounted;
    forall id | id in s'.sessions
      ensures exists o: nat :: StoredAs(log', o, id, s'.heap[s'.sessions[id]])
    {
      if id in s.sessions && s'.sessions[id] == s.sessions[id] {
        var o: nat :| StoredAs(log, o, id, s.heap[s.sessions[id]]);
        assert log'[o] == log[o];
        assert StoredAs(log', o, id, s'.heap[s'.sessions[id]]);
      }
    }
  }

  lemma ResultsStillAccounted(cfg: Config, s: State, log: seq<Entry>, x: Entry, e: Effect)
    requires Wf(s) && Grounded(s, e) && ResultsAccounted(cfg, s, log) && StepSound(cfg, s, log + [x], e) && Wf(Perform(s, e))
    requires forall r :: r in s.heap ==> r in Perform(s, e).heap && SameSession(s.heap[r], Perform(s, e).heap[r])
    ensures ResultsAccounted(cfg, Perform(s, e), log + [x])
  {
    var s', log' := Perform(s, e), log + [x];
    After(s, e);
    hide Perform, Grounded, Reaches, Accounted;
    forall r | r in s'.heap && s'.heap[r].result.Some?
      ensures exists q: nat, h, end: nat :: Accounted(cfg, log', s'.heap[r], q, h, end, s'.heap[r].result.value)
    {
      if r in s.heap && s'.heap[r].result == s.heap[r].result {
        var q: nat, h, end: nat :| Accounted(cfg, log, s.heap[r], q, h, end, s.heap[r].result.value);
        AccountedStill(cfg, log, x, s.heap[r], s'.heap[r], q, h, end, s.heap[r].result.value);
      } else {
        var q: nat, h, end: nat :| Accounted(cfg, log', s.heap[r], q, h, end, e.verdict);
        SameAccounted(cfg, log', s.heap[r], s'.heap[r], q, h, end, e.verdict);
      }
    }
  }

  lemma SameAccounted(cfg: Config, log: seq<Entry>, p: Session, p': Session, q: nat, h: Trail, end: nat, v: Verdict)
    requires Accounted(cfg, log, p, q, h, end, v) && SameSession(p, p')
    ensures Accounted(cfg, log, p', q, h, end, v)
  {
    hide Concluded;
  }

  lemma StepKeepsSound(cfg: Config, s: State, log: seq<Entry>, now: int, event: Event)
    requires Wf(s) && StateSound(cfg, s, log)
    ensures var (e, response) := Decide(cfg, s, now, event);
            Wf(Perform(s, e)) && StateSound(cfg, Perform(s, e), log + [Entry(now, event, response)])
  {
    var (e, response) := Decide(cfg, s, now, event);
    var x := Entry(now, event, response);
    StepsAreSound(cfg, s, log, now, event);
    DecisionsAreGrounded(cfg, s, now, event);
    GroundedKeepsWf(s, e);
    forall r | r in s.heap
      ensures r in Perform(s, e).heap && SameSession(s.heap[r], Perform(s, e).heap[r])
    {
      SessionsKeepTheirIdentity(s, e, r);
    }
    forall q | q in s.flights
      ensures Served(x, q) ==> (e.SetFlight? || e.EndFlight? || e.Finish?) && e.request == q
    {
      ServedMovesOn(cfg, s, now, event, q);
    }
    hide Served, Decide, Perform, Wf, Grounded, StepSound, HandlersReach, SessionsOpened, ResultsAccounted, SameSession;
    HandlersStillReach(cfg, s, log, x, e);
    SessionsStillOpened(cfg, s, log, x, e);
    ResultsStillAccounted(cfg, s, log, x, e);
  }

  lemma {:induction false} RunIsSound(cfg: Config, input: seq<Timed>)
    ensures StateSound(cfg, Run(cfg, input).0, Run(cfg, input).1)
  {
    if input != [] {
      var before, last := input[..|input| - 1], input[|input| - 1];
      var (s, log) := Run(cfg, before);
      RunIsSound(cfg, before);
      StepKeepsSound(cfg, s, log, last.now, last.event);
      hide Decide, Perform, Wf, StateSound;
    }
  }

  // ----------------------------------------------------------------- results

  /** The step behind a verdict that left the verifier, sent or polled. */
  lemma ResultsComeFrom(cfg: Config, s: State, now: int, event: Event)
    requires Wf(s) && Step(cfg, s, now, event).1.Result?
    ensures var (e, response) := Decide(cfg, s, now, event);
            || (e.Finish? && e.verdict == response.verdict && !event.GetResult?)
            || (event.GetResult? && exists r :: HoldsResult(s, r, event.resultToken, response.verdict))
  {
    if event.GetResult? {
      FoundToken(s, s.order, event.resultToken);
      var r := FindToken(s, s.order, event.resultToken).value;
      hide FindToken;
      assert HoldsResult(s, r, event.resultToken, Step(cfg, s, now, event).1.verdict);
    }
    hide Check, WithDcql, WithStatus, L.ReadStatus, NamedIssuer, FindToken;
  }

  ghost predicate HoldsResult(s: State, r: Ref, token: string, v: Verdict) {
    r in s.heap && s.heap[r].resultToken == token && s.heap[r].result == Some(v)
  }

  /** The verdict at position `i` is the one that a handler concluded: at this very position if it is sent to the
      wallet; earlier, in the session whose result token is polled, if it is read with that token. */
  ghost predicate Explains(cfg: Config, log: seq<Entry>, i: nat, q: nat, h: Trail, end: nat)
    requires i < |log| && log[i].response.Result?
  {
    && Concluded(cfg, log, q, h, end, log[i].response.verdict) && SaysSo(cfg, log, q, h, end, log[i].response.verdict)
    && if log[i].event.GetResult? then end < i && log[h.created].event.newToken == log[i].event.resultToken else end == i
  }

  lemma PolledIsExplained(cfg: Config, s: State, log: seq<Entry>, x: Entry, r: Ref)
    requires Wf(s) && ResultsAccounted(cfg, s, log) && x.event.GetResult? && x.response.Result?
    requires HoldsResult(s, r, x.event.resultToken, x.response.verdict)
    ensures exists q: nat, h, end: nat :: Explains(cfg, log + [x], |log|, q, h, end)
  {
    var v := x.response.verdict;
    var q: nat, h, end: nat :| Accounted(cfg, log, s.heap[r], q, h, end, v);
    assert (log + [x])[|log|] == x && (log + [x])[h.created] == log[h.created];
    assert end < |log| && log[h.created].event.newToken == s.heap[r].resultToken;
    ConcludedStill(cfg, log, x, q, h, end, v);
    ConcludedSaysSo(cfg, log + [x], q, h, end, v);
    hide Concluded, SaysSo;
    assert Explains(cfg, log + [x], |log|, q, h, end);
  }

  lemma EndsHere(cfg: Config, s: State, log: seq<Entry>, now: int, event: Event)
    requires Wf(s) && StateSound(cfg, s, log) && Decide(cfg, s, now, event).0.Finish? && !event.GetResult?
    requires Decide(cfg, s, now, event).1 == Result(Decide(cfg, s, now, event).0.verdict)
    ensures exists q: nat, h, end: nat :: Explains(cfg, log + [Entry(now, event, Decide(cfg, s, now, event).1)], |log|, q, h, end)
  {
    var (e, response) := Decide(cfg, s, now, event);
    var x := Entry(now, event, response);
    var log' := log + [x];
    EffectsOfEvents(cfg, s, now, event);
    var q := event.request;
    var h :| Reaches(cfg, log, s.heap[s.flights[q].session], q, s.flights[q].stage, h);
    assert log'[|log|] == x;
    hide Reaches, DecideVerified, DecideRead, StateSound, Concluded, SaysSo;
    if event.PresentationVerified? {
      VerifiedAdvances(cfg, s, log, now, q, h);
      ConcludedSaysSo(cfg, log', q, h.(verified := |log|), |log|, e.verdict);
      assert Explains(cfg, log', |log|, q, h.(verified := |log|), |log|);
    } else {
      ReadAdvances(cfg, s, log, now, q, h);
      ConcludedSaysSo(cfg, log', q, h.(read := |log|), |log|, e.verdict);
      assert Explains(cfg, log', |log|, q, h.(read := |log|), |log|);
    }
  }

  lemma ResultIsExplained(cfg: Config, s: State, log: seq<Entry>, now: int, event: Event)
    requires Wf(s) && StateSound(cfg, s, log) && Step(cfg, s, now, event).1.Result?
    ensures exists q: nat, h, end: nat :: Explains(cfg, log + [Entry(now, event, Step(cfg, s, now, event).1)], |log|, q, h, end)
  {
    var (e, response) := Decide(cfg, s, now, event);
    ResultsComeFrom(cfg, s, now, event);
    hide Decide, Perform, HandlersReach, SessionsOpened, ResultsAccounted, HoldsResult;
    if e.Finish? && e.verdict == response.verdict && !event.GetResult? {
      EndsHere(cfg, s, log, now, event);
    } else {
      var r :| HoldsResult(s, r, event.resultToken, response.verdict);
      PolledIsExplained(cfg, s, log, Entry(now, event, response), r);
    }
  }

  lemma ExplainsStill(cfg: Config, log: seq<Entry>, more: seq<Entry>, i: nat, q: nat, h: Trail, end: nat)
    requires i < |log| && log[i].response.Result? && log <= more && Explains(cfg, log, i, q, h, end)
    ensures more[i] == log[i] && Explains(cfg, more, i, q, h, end)
    decreases |more|
  {
    if |more| > |log| {
      var n := |more| - 1;
      ExplainsStill(cfg, log, more[..n], i, q, h, end);
      assert more == more[..n] + [more[n]];
      ConcludedStill(cfg, more[..n], more[n], q, h, end, log[i].response.verdict);
      ConcludedSaysSo(cfg, more, q, h, end, log[i].response.verdict);
      assert h.created < n;
      hide Concluded, SaysSo;
    } else {
      assert more == log;
    }
  }

  /** Every verdict that leaves the verifier, sent to the wallet or polled with a result token, has a trail in the run
      of one handler on one session: opened, posted to in its lifetime, given the key of a trusted issuer that the
      presentation names, verified under that key for that session's nonce at that stretch's time, and, if the
      credential refers to a status list, a list fetched by that handler and read at a later stretch's time. The
      verdict is valid exactly when it lists no error, and exactly when the presentation verified, the status read
      VALID where one is referenced, and no requested path is missing. */
  lemma {:induction false} ResultsAreSound(cfg: Config, input: seq<Timed>, i: nat)
    requires i < |input| && Run(cfg, input).1[i].response.Result?
    ensures exists q: nat, h, end: nat :: Explains(cfg, Run(cfg, input).1, i, q, h, end)
  {
    hide Run, Step, StateSound, Wf, Explains;
    RunContinues(cfg, input, i);
    RunContinues(cfg, input, i + 1);
    RunIsSound(cfg, input[..i]);
    var (s, log) := Run(cfg, input[..i]);
    var all := Run(cfg, input).1;
    var x := all[i];
    ResultIsExplained(cfg, s, log, x.now, x.event);
    assert log + [x] == all[..i + 1];
    var q: nat, h, end: nat :| Explains(cfg, log + [x], |log|, q, h, end);
    ExplainsStill(cfg, log + [x], all, i, q, h, end);
  }

  // ------------------------------------------------------------- one trail only

  /** A handler's later life begins after its earlier one has ended. */
  lemma EarlierPost(cfg: Config, log: seq<Entry>, q: nat, h: Trail, end: nat, v: Verdict, h': Trail, end': nat, v': Verdict)
    requires Concluded(cfg, log, q, h, end, v) && Concluded(cfg, log, q, h', end', v') && h.posted < h'.posted
    ensures end < h'.posted
  {
    hide CheckOf, ReadOf, WithDcql, WithStatus, Paths, IssuerNamed;
    assert Served(log[h'.posted], q);
  }

  /** Two trails of one handler from the same post agree. */
  lemma SamePostSameTrail(cfg: Config, log: seq<Entry>, q: nat, h: Trail, end: nat, v: Verdict, h': Trail, end': nat, v': Verdict)
    requires Concluded(cfg, log, q, h, end, v) && Concluded(cfg, log, q, h', end', v') && h.posted == h'.posted && end <= end'
    ensures end == end' && h.trusted == h'.trusted && h.verified == h'.verified
    ensures end != h.verified ==> h.fetched == h'.fetched && h.read == h'.read
  {
    hide CheckOf, ReadOf, WithDcql, WithStatus, Paths, IssuerNamed;
    assert Served(log[end], q) && Served(log[h.trusted], q) && Served(log[h'.trusted], q);
    assert h.trusted in {h'.trusted, h'.verified, h'.fetched};
    assert end < end' ==> end in {h'.trusted, h'.verified, h'.fetched};
  }

  /** The input's events at the positions of the log. */
  lemma LogIsTheInput(cfg: Config, input: seq<Timed>)
    ensures forall k :: 0 <= k < |input| ==> Run(cfg, input).1[k].event == input[k].event
  {
    hide Step, Run, Wf;
    forall k | 0 <= k < |input|
      ensures Run(cfg, input).1[k].event == input[k].event
    {
      RunContinues(cfg, input, k);
    }
  }

  /** The positions that count of two trails of one verdict agree. */
  predicate SameTrail(h: Trail, end: nat, h': Trail, end': nat) {
    && end == end' && h.created == h'.created && h.posted == h'.posted && h.trusted == h'.trusted && h.verified == h'.verified
    && (end != h.verified ==> h.fetched == h'.fetched && h.read == h'.read)
  }

  lemma SameKeySameTrail(cfg: Config, log: seq<Entry>, q: nat, h: Trail, end: nat, v: Verdict, h': Trail, end': nat, v': Verdict)
    requires Concluded(cfg, log, q, h, end, v) && Concluded(cfg, log, q, h', end', v') && (h.trusted == h'.trusted || end == end')
    ensures h.created == h'.created ==> SameTrail(h, end, h', end')
    ensures h.trusted == h'.trusted
  {
    assert h.posted < h.trusted < end && h'.posted < h'.trusted < end' by { hide CheckOf, ReadOf, WithDcql, WithStatus, Paths, IssuerNamed; }
    hide Concluded;
    if h.posted < h'.posted { EarlierPost(cfg, log, q, h, end, v, h', end', v'); }
    if h'.posted < h.posted { EarlierPost(cfg, log, q, h', end', v', h, end, v); }
    if end <= end' {
      SamePostSameTrail(cfg, log, q, h, end, v, h', end', v');
    } else {
      SamePostSameTrail(cfg, log, q, h', end', v', h, end, v);
    }
  }

  /** What a trail says of the log, for comparing two of them. */
  lemma TrailNames(cfg: Config, log: seq<Entry>, q: nat, h: Trail, end: nat, v: Verdict)
    requires Concluded(cfg, log, q, h, end, v)
    ensures h.created < |log| && log[h.created].event.PostRequest? && h.trusted < |log|
    ensures log[h.trusted].event.TrustResolved? && log[h.trusted].event.request == q
    ensures log[h.trusted].response == VerifyingNonce(log[h.created].event.newNonce)
  {
    hide CheckOf, ReadOf, WithDcql, WithStatus, Paths, IssuerNamed;
  }

  lemma EndNames(cfg: Config, log: seq<Entry>, i: nat, q: nat, h: Trail, end: nat)
    requires i < |log| && log[i].response.Result? && Explains(cfg, log, i, q, h, end) && !log[i].event.GetResult?
    ensures end == i && Served(log[i], q)
  {
    hide CheckOf, ReadOf, WithDcql, WithStatus, Paths, IssuerNamed, SaysSo;
  }

  /** When nonces and result tokens are minted once, a verdict has one trail: the session, the handler and every position
      that led to it are determined. */
  lemma {:induction false} TrailIsUnique(cfg: Config, input: seq<Timed>, i: nat, q: nat, h: Trail, end: nat, q': nat, h': Trail, end': nat)
    requires MintedOnce(input) && i < |input| && Run(cfg, input).1[i].response.Result?
    requires Explains(cfg, Run(cfg, input).1, i, q, h, end) && Explains(cfg, Run(cfg, input).1, i, q', h', end')
    ensures q == q' && SameTrail(h, end, h', end')
  {
    var log := Run(cfg, input).1;
    var v := log[i].response.verdict;
    LogIsTheInput(cfg, input);
    if !log[i].event.GetResult? {
      EndNames(cfg, log, i, q, h, end);
      EndNames(cfg, log, i, q', h', end');
    }
    hide Run, Concluded, SaysSo, SameTrail;
    TrailNames(cfg, log, q, h, end, v);
    TrailNames(cfg, log, q', h', end', v);
    if log[i].event.GetResult? {
      assert input[h.created].event.newToken == input[h'.created].event.newToken;
      if h.trusted < h'.trusted { NonceVerifiedAtMostOnce(cfg, input, h.trusted, h'.trusted); }
      if h'.trusted < h.trusted { NonceVerifiedAtMostOnce(cfg, input, h'.trusted, h.trusted); }
    }
    SameKeySameTrail(cfg, log, q, h, end, v, h', end', v);
    assert input[h.created].event.newNonce == input[h'.created].event.newNonce;
  }
}
