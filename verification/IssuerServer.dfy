/** The issuer as the program runs it: stores of record objects, updated in place. Every handler stretch refines
    one step of the state machine; random identifiers and the outcome of each awaited call are parameters. */
module IssuerServer {
  import opened Basics
  import M = IssuerModel
  import L = StatusLists

  /** A `Pending` object. Two stores that hold it share it. */
  class PendingRecord {
    const configId: M.ConfigId
    var cNonce: Option<string>
    var accessToken: Option<string>
    var issuedAt: Option<int>
    const createdAt: Option<int>
    ghost const ref: M.Ref

    constructor (configId: M.ConfigId, createdAt: Option<int>, ghost ref: M.Ref)
      ensures this.ref == ref && View() == M.Pending(configId, None, None, None, createdAt)
    {
      this.configId, this.createdAt, this.ref := configId, createdAt, ref;
      cNonce, accessToken, issuedAt := None, None, None;
    }

    ghost function View(): M.Pending
      reads this
    {
      M.Pending(configId, cNonce, accessToken, issuedAt, createdAt)
    }
  }

  datatype CodeEntry = CodeEntry(codeChallenge: string, clientId: string, pending: PendingRecord, createdAt: int)

  /** A /credential handler suspended at an await, with the local variables it still needs. */
  datatype Handler =
    | ImportingKey(pending: PendingRecord)
    | CheckingProof(pending: PendingRecord)
    | Signing(pending: PendingRecord, idx: nat)

  ghost function HeapView(heap: seq<PendingRecord>): map<M.Ref, M.Pending>
    reads heap
  {
    map r | 0 <= r < |heap| :: heap[r].View()
  }

  ghost function RefsView(store: map<string, PendingRecord>): map<string, M.Ref> {
    map k | k in store :: store[k].ref
  }

  ghost function CodeView(c: CodeEntry): M.AuthCode {
    M.AuthCode(c.codeChallenge, c.clientId, c.pending.ref, c.createdAt)
  }

  ghost function CodesView(store: map<string, CodeEntry>): map<string, M.AuthCode> {
    map k | k in store :: CodeView(store[k])
  }

  ghost function FlightView(h: Handler): M.Flight {
    match h
    case ImportingKey(p) => M.ImportingKey(p.ref)
    case CheckingProof(p) => M.CheckingProof(p.ref)
    case Signing(p, idx) => M.Signing(p.ref, idx)
  }

  ghost function FlightsView(handlers: map<nat, Handler>): map<nat, M.Flight> {
    map q | q in handlers :: FlightView(handlers[q])
  }

  /** `p` is one of the records allocated so far. */
  ghost predicate Known(heap: seq<PendingRecord>, p: PendingRecord) {
    p.ref < |heap| && heap[p.ref] == p
  }

  /** Records are numbered in the order of their allocation, and every reference is to one of them. */
  ghost predicate Holds(heap: seq<PendingRecord>, offers: map<string, PendingRecord>, authCodes: map<string, CodeEntry>,
                        accessTokens: map<string, PendingRecord>, handlers: map<nat, Handler>)
  {
    && (forall r :: 0 <= r < |heap| ==> heap[r].ref == r)
    && (forall k :: k in offers ==> Known(heap, offers[k]))
    && (forall k :: k in authCodes ==> Known(heap, authCodes[k].pending))
    && (forall k :: k in accessTokens ==> Known(heap, accessTokens[k]))
    && (forall q :: q in handlers ==> Known(heap, handlers[q].pending))
  }

  ghost function StateOf(
      records: map<M.Ref, M.Pending>, n: nat, offers: map<string, PendingRecord>, parRequests: map<string, M.ParRequest>,
      authCodes: map<string, CodeEntry>, accessTokens: map<string, PendingRecord>, handlers: map<nat, Handler>,
      nextStatusIdx: nat, issuedRecords: seq<M.IssuedRecord>, revoked: set<int>): M.State
  {
    M.State(records, n, RefsView(offers), parRequests, CodesView(authCodes), RefsView(accessTokens), FlightsView(handlers),
            nextStatusIdx, issuedRecords, revoked)
  }

  lemma HeapAdd(heap: seq<PendingRecord>, p: PendingRecord, offers: map<string, PendingRecord>, authCodes: map<string, CodeEntry>,
                accessTokens: map<string, PendingRecord>, handlers: map<nat, Handler>)
    requires Holds(heap, offers, authCodes, accessTokens, handlers) && p.ref == |heap|
    ensures Holds(heap + [p], offers, authCodes, accessTokens, handlers) && Known(heap + [p], p)
    ensures HeapView(heap + [p]) == HeapView(heap)[|heap| := p.View()]
  {
  }

  /** The bits of the packed list are a set of indices. */
  ghost predicate Packs(bytes: seq<bv8>, members: set<int>) {
    && |bytes| == L.ByteLength(M.STATUS_LIST_SIZE)
    && (forall idx :: 0 <= idx < M.STATUS_LIST_SIZE ==> (L.BitAt(bytes, idx) == 1 <==> idx in members))
    && (forall idx :: idx in members ==> 0 <= idx < M.STATUS_LIST_SIZE)
  }

  lemma PacksOneMore(bytes: seq<bv8>, members: set<int>, idx: int)
    requires Packs(bytes, members) && 0 <= idx < M.STATUS_LIST_SIZE
    ensures Packs(L.SetBit(bytes, idx, true), members + {idx})
  {
    forall j | 0 <= j < M.STATUS_LIST_SIZE
      ensures L.BitAt(L.SetBit(bytes, idx, true), j) == 1 <==> j in members + {idx}
    {
      L.SetThenGet(bytes, idx, true, j);
    }
  }

  lemma PacksNothing()
    ensures Packs(L.Zeros(M.STATUS_LIST_SIZE), {})
  {
    forall j | 0 <= j < M.STATUS_LIST_SIZE
      ensures L.BitAt(L.Zeros(M.STATUS_LIST_SIZE), j) == 0
    {
    }
  }

  class Issuer {
    const cfg: M.Config
    var offers: map<string, PendingRecord>
    var parRequests: map<string, M.ParRequest>
    var authCodes: map<string, CodeEntry>
    var accessTokens: map<string, PendingRecord>
    var handlers: map<nat, Handler>
    var nextStatusIdx: nat
    var issuedRecords: seq<M.IssuedRecord>
    const statusList: L.StatusList
    ghost var heap: seq<PendingRecord>
    ghost var revoked: set<int>

    ghost predicate Valid()
      reads this, statusList.bytes
    {
      && Holds(heap, offers, authCodes, accessTokens, handlers)
      && statusList.Valid() && statusList.size == M.STATUS_LIST_SIZE && Packs(statusList.bytes[..], revoked)
    }

    /** The state of the model that the fields represent. */
    ghost function Abs(): (s: M.State)
      requires Valid()
      reads this, heap, statusList.bytes
      ensures M.Wf(s)
    {
      StateOf(HeapView(heap), |heap|, offers, parRequests, authCodes, accessTokens, handlers, nextStatusIdx, issuedRecords, revoked)
    }

    constructor (cfg: M.Config)
      ensures Valid() && Abs() == M.INIT && this.cfg == cfg && fresh(statusList) && fresh(statusList.bytes)
    {
      this.cfg := cfg;
      offers, parRequests, authCodes, accessTokens, handlers := map[], map[], map[], map[], map[];
      nextStatusIdx, issuedRecords := 0, [];
      statusList := new L.StatusList(M.STATUS_LIST_SIZE);
      heap, revoked := [], {};
      new;
      PacksNothing();
    }

    // ------------------------------------------------------------ handlers

    /** POST /offer */
    method PostOffer(now: int, configId: Option<M.ConfigId>, newCode: string) returns (response: M.Response)
      requires Valid()
      modifies this
      ensures Valid() && (Abs(), response) == M.Step(cfg, old(Abs()), now, M.PostOffer(configId, newCode))
    {
      hide M.Wf, Packs;
      SizeOfRefs(offers);
      var id := match configId case Some(c) => c case None => M.Pid;
      if id.Unknown? {
        response := M.Failed(400, M.InvalidRequest);
      } else if |offers| >= M.MAX_MAP_SIZE {
        response := M.Failed(429, M.TooManyRequests);
      } else {
        StoreOffer(now, id, newCode);
        response := M.OfferCreated(newCode, id);
      }
      hide M.Perform;
    }

    method StoreOffer(now: int, id: M.ConfigId, newCode: string)
      requires Valid()
      modifies this
      ensures Valid() && Abs() == M.Perform(old(Abs()), M.AddOffer(newCode, M.Pending(id, None, None, None, Some(now))))
    {
      hide M.Wf, Packs, M.Perform, Holds, StateOf, HeapView, Known;
      var pending := new PendingRecord(id, Some(now), |heap|);
      HeapAdd(heap, pending, offers, authCodes, accessTokens, handlers);
      OfferAdd(this, heap + [pending], newCode, pending, pending.View());
      heap := heap + [pending];
      offers := offers[newCode := pending];
    }

    /** POST /par */
    method PostPar(now: int, clientId: string, codeChallenge: string, isS256: bool, newUri: string) returns (response: M.Response)
      requires Valid()
      modifies this
      ensures Valid() && (Abs(), response) == M.Step(cfg, old(Abs()), now, M.PostPar(clientId, codeChallenge, isS256, newUri))
    {
      hide M.Wf, Packs, RefsView, CodesView, FlightsView, HeapView, Holds;
      if clientId == "" || !isS256 || codeChallenge == "" {
        response := M.Failed(400, M.InvalidRequest);
      } else if |parRequests| >= M.MAX_MAP_SIZE {
        response := M.Failed(429, M.TooManyRequests);
      } else {
        parRequests := parRequests[newUri := M.ParRequest(clientId, codeChallenge, now)];
        response := M.ParAccepted(newUri);
      }
    }

    /** GET /authorize */
    method GetAuthorize(now: int, requestUri: string, newCode: string) returns (response: M.Response)
      requires Valid()
      modifies this
      ensures Valid() && (Abs(), response) == M.Step(cfg, old(Abs()), now, M.GetAuthorize(requestUri, newCode))
    {
      hide M.Wf, Packs, RefsView, CodesView, FlightsView, HeapView, Holds;
      SizeOfCodes(authCodes);
      if requestUri !in parRequests {
        response := M.Failed(400, M.InvalidRequest);
      } else {
        var par := parRequests[requestUri];
        if M.ParExpired(now, par) {
          parRequests := parRequests - {requestUri};
          response := M.Failed(400, M.InvalidRequest);
        } else if |authCodes| >= M.MAX_MAP_SIZE {
          response := M.Failed(429, M.TooManyRequests);
        } else {
          StoreCode(now, requestUri, par, newCode);
          response := M.Authorized(newCode);
        }
      }
    }

    method StoreCode(now: int, requestUri: string, par: M.ParRequest, newCode: string)
      requires Valid()
      modifies this
      ensures Valid() && Abs() == M.Perform(old(Abs()),
                M.ParToCode(requestUri, newCode, M.AuthCode(par.codeChallenge, par.clientId, old(|heap|), now), M.Pending(M.Pid, None, None, None, None)))
    {
      hide M.Wf, Packs, M.Perform, Holds, StateOf, HeapView, Known;
      var pending := new PendingRecord(M.Pid, None, |heap|);
      HeapAdd(heap, pending, offers, authCodes, accessTokens, handlers);
      var entry := CodeEntry(par.codeChallenge, par.clientId, pending, now);
      CodeAdd(this, heap + [pending], requestUri, newCode, entry, pending.View());
      heap := heap + [pending];
      authCodes := authCodes[newCode := entry];
      parRequests := parRequests - {requestUri};
    }


    /** POST /token */
    method PostToken(now: int, grant: M.Grant, newToken: string, newNonce: string) returns (response: M.Response)
      requires Valid()
      modifies this, heap
      ensures Valid() && (Abs(), response) == M.Step(cfg, old(Abs()), now, M.PostToken(grant, newToken, newNonce))
    {
      hide M.Wf, M.Redeem, Packs, Holds, StateOf, HeapView, M.Perform;
      ghost var s := Abs();
      var pending, failure := TakeGrant(now, grant);
      if pending == null {
        return failure;
      }
      TokenAfterGrant(cfg, s, now, grant, pending.ref, newToken, newNonce);
      response := GiveToken(now, pending, newToken, newNonce);
    }

    /** The first half of /token: consume the code, or refuse. */
    method TakeGrant(now: int, grant: M.Grant) returns (pending: PendingRecord?, failure: M.Response)
      requires Valid()
      modifies this
      ensures Valid() && heap == old(heap) && Taken(M.Redeem(cfg, old(Abs()), now, grant), old(Abs()), grant, pending, failure)
    {
      hide M.Wf, Packs, Holds, StateOf, HeapView, M.Perform;
      pending, failure := null, M.Failed(400, M.InvalidGrant);
      GrantDrop(this, grant);
      match grant {
        case AuthorizationCode(code, clientId, codeVerifier) =>
          FindCode(this, code);
          if code in authCodes {
            var entry := authCodes[code];
            if now - entry.createdAt > M.AUTH_CODE_TTL_MS {
              authCodes := authCodes - {code};
            } else if clientId != Some(entry.clientId) {
              authCodes := authCodes - {code};
            } else {
              var pkce := M.PkceError(cfg, codeVerifier, entry.codeChallenge);
              if pkce.Some? {
                failure := pkce.value;
              } else {
                authCodes := authCodes - {code};
                pending := entry.pending;
              }
            }
          }
          hide M.PkceError, CodesView, RefsView;
        case PreAuthorizedCode(code) =>
          FindOffer(this, code);
          if code in offers {
            var offer := offers[code];
            offers := offers - {code};
            if M.Age(now, offer.createdAt) <= M.PRE_AUTH_CODE_TTL_MS {
              pending := offer;
            }
          }
          hide M.PkceError, CodesView, RefsView;
      }
    }

    ghost predicate Taken(redemption: M.Redemption, s: M.State, grant: M.Grant, pending: PendingRecord?, failure: M.Response)
      requires Valid() && M.Wf(s)
      reads this, heap, statusList.bytes
    {
      match redemption
      case Refused(effect, response) => pending == null && failure == response && Abs() == M.Perform(s, effect)
      case Redeemed(r) => pending != null && Known(heap, pending) && pending.ref == r && Abs() == M.Perform(s, M.DropGrant(grant))
    }

    /** The second half of /token: mint the token, unless the store is full. */
    method GiveToken(now: int, pending: PendingRecord, newToken: string, newNonce: string) returns (response: M.Response)
      requires Valid() && Known(heap, pending)
      modifies this, pending
      ensures Valid() && pending.ref in old(Abs()).heap
      ensures var s := old(Abs());
              var record := s.heap[pending.ref].(accessToken := Some(newToken), cNonce := Some(newNonce), issuedAt := Some(now));
              if |s.accessTokens| >= M.MAX_MAP_SIZE
              then response == M.Failed(429, M.TooManyRequests) && Abs() == s.(heap := s.heap[pending.ref := record])
              else response == M.TokenIssued(newToken, newNonce) &&
                   Abs() == s.(heap := s.heap[pending.ref := record], accessTokens := s.accessTokens[newToken := pending.ref])
    {
      hide M.Wf, Packs, Holds, FlightsView, CodesView, RefsView, HeapView, Known;
      ghost var before := HeapView(heap);
      TokenAdd(this, newToken, pending);
      FindRecord(this, pending);
      pending.accessToken := Some(newToken);
      pending.cNonce := Some(newNonce);
      pending.issuedAt := Some(now);
      HeapSet(heap, pending, before);
      if |accessTokens| >= M.MAX_MAP_SIZE {
        response := M.Failed(429, M.TooManyRequests);
      } else {
        accessTokens := accessTokens[newToken := pending];
        response := M.TokenIssued(newToken, newNonce);
      }
    }

    /** POST /credential, up to the import of the holder's key. */
    method PostCredential(now: int, request: nat, accessToken: string, hasProof: bool, hasHolderJwk: bool) returns (response: M.Response)
      requires Valid()
      modifies this
      ensures Valid() && (Abs(), response) == M.Step(cfg, old(Abs()), now, M.PostCredential(request, accessToken, hasProof, hasHolderJwk))
    {
      hide M.Wf, Packs, Holds, StateOf, HeapView, M.Perform, Known, RefsView, FlightsView;
      FindToken(this, accessToken);
      FindHandler(this, request);
      TokenDrop(this, accessToken);
      if request in handlers {
        response := M.NoSuchHandler;
      } else if accessToken !in accessTokens {
        response := M.Failed(401, M.InvalidToken);
      } else {
        var pending := accessTokens[accessToken];
        HandlerAdd(this, accessToken, request, pending);
        if M.Age(now, pending.issuedAt) > M.ACCESS_TOKEN_TTL_MS {
          accessTokens := accessTokens - {accessToken};
          response := M.Failed(401, M.InvalidToken);
        } else if !hasProof {
          response := M.Failed(400, M.InvalidProof);
        } else {
          accessTokens := accessTokens - {accessToken};
          if !hasHolderJwk {
            response := M.Failed(400, M.InvalidProof);
          } else {
            handlers := handlers[request := ImportingKey(pending)];
            response := M.Awaiting;
          }
        }
      }
    }

    /** `importJWK` returned, or threw. */
    method KeyImported(now: int, request: nat, imported: bool) returns (response: M.Response)
      requires Valid()
      modifies this
      ensures Valid() && (Abs(), response) == M.Step(cfg, old(Abs()), now, M.KeyImported(request, imported))
    {
      hide M.Wf, Packs, Holds, StateOf, HeapView, M.Perform, Known, RefsView, FlightsView;
      FindHandler(this, request);
      if request !in handlers || !handlers[request].ImportingKey? {
        response := M.NoSuchHandler;
      } else {
        HandlerDrop(this, request);
        HandlerSet(this, request, CheckingProof(handlers[request].pending));
        if imported {
          handlers := handlers[request := CheckingProof(handlers[request].pending)];
          response := M.Awaiting;
        } else {
          handlers := handlers - {request};
          response := M.Failed(400, M.InvalidProof);
        }
      }
    }

    /** `jwtVerify` returned the proof's claims, or threw. */
    method ProofChecked(now: int, request: nat, proof: Option<M.Proof>) returns (response: M.Response)
      requires Valid()
      modifies this
      ensures Valid() && (Abs(), response) == M.Step(cfg, old(Abs()), now, M.ProofChecked(request, proof))
    {
      hide M.Wf, Packs, Holds, StateOf, HeapView, M.Perform, Known, RefsView, FlightsView;
      FindHandler(this, request);
      if request !in handlers || !handlers[request].CheckingProof? {
        return M.NoSuchHandler;
      }
      var pending := handlers[request].pending;
      var idx := nextStatusIdx;
      HandlerDrop(this, request);
      if proof.None? || proof.value.nonce != pending.cNonce || M.Age(now, pending.issuedAt) > M.C_NONCE_TTL_MS
         || proof.value.aud != Some(cfg.issuerUrl)
      {
        handlers := handlers - {request};
        response := M.Failed(400, M.InvalidProof);
      } else {
        var entry := if pending.configId == M.Mdl then [] else [M.IssuedRecord(idx, M.FamilyName, now)];
        Accepted(this, request, pending, entry);
        nextStatusIdx := nextStatusIdx + 1;
        issuedRecords := issuedRecords + entry;
        handlers := handlers[request := Signing(pending, idx)];
        response := M.ProofAccepted(idx, pending.configId);
      }
    }

    /** The credential was signed, or signing threw. */
    method CredentialSigned(now: int, request: nat, signed: bool) returns (response: M.Response)
      requires Valid()
      modifies this
      ensures Valid() && (Abs(), response) == M.Step(cfg, old(Abs()), now, M.CredentialSigned(request, signed))
    {
      hide M.Wf, Packs, Holds, StateOf, HeapView, M.Perform, Known, RefsView, FlightsView;
      FindHandler(this, request);
      if request !in handlers || !handlers[request].Signing? {
        return M.NoSuchHandler;
      }
      HandlerDrop(this, request);
      var flight := handlers[request];
      var entry := if flight.pending.configId == M.Mdl then [M.IssuedRecord(flight.idx, M.MdlSubject, now)] else [];
      Sent(this, request, entry);
      handlers := handlers - {request};
      if signed {
        issuedRecords := issuedRecords + entry;
        response := M.Credential(flight.idx, flight.pending.configId);
      } else {
        response := M.Failed(500, M.ServerError);
      }
    }

    /** `sweepIssuer`: one pass over each store, deleting what has expired. */
    method Sweep(now: int)
      requires Valid()
      modifies this
      ensures Valid() && M.Step(cfg, old(Abs()), now, M.Sweep) == (Abs(), M.Swept)
    {
      hide M.Wf, Packs, Holds, StateOf, HeapView, M.Perform, LiveOffers, LivePars, LiveCodes, LiveTokens;
      Swept(this, now);
      SweepOffers(now);
      SweepPars(now);
      SweepCodes(now);
      SweepTokens(now);
    }

    method SweepOffers(now: int)
      modifies this`offers
      ensures offers == LiveOffers(old(offers), now)
    {
      var todo := offers.Keys;
      while todo != {}
        invariant todo <= old(offers).Keys
        invariant offers == map k | k in old(offers) && (k in todo || !OfferGone(old(offers)[k], now)) :: old(offers)[k]
      {
        var k :| k in todo;
        if now - (match offers[k].createdAt case Some(t) => t case None => 0) > M.PRE_AUTH_CODE_TTL_MS {
          offers := offers - {k};
        }
        todo := todo - {k};
      }
    }

    method SweepPars(now: int)
      modifies this`parRequests
      ensures parRequests == LivePars(old(parRequests), now)
    {
      var todo := parRequests.Keys;
      while todo != {}
        invariant todo <= old(parRequests).Keys
        invariant parRequests == map k | k in old(parRequests) && (k in todo || !M.ParExpired(now, old(parRequests)[k])) :: old(parRequests)[k]
      {
        var k :| k in todo;
        if now - parRequests[k].createdAt > M.PAR_TTL_MS {
          parRequests := parRequests - {k};
        }
        todo := todo - {k};
      }
    }

    method SweepCodes(now: int)
      modifies this`authCodes
      ensures authCodes == LiveCodes(old(authCodes), now)
    {
      var todo := authCodes.Keys;
      while todo != {}
        invariant todo <= old(authCodes).Keys
        invariant authCodes == map k | k in old(authCodes) && (k in todo || !M.CodeExpired(now, CodeView(old(authCodes)[k]))) :: old(authCodes)[k]
      {
        var k :| k in todo;
        if now - authCodes[k].createdAt > M.AUTH_CODE_TTL_MS {
          authCodes := authCodes - {k};
        }
        todo := todo - {k};
      }
    }

    method SweepTokens(now: int)
      modifies this`accessTokens
      ensures accessTokens == old(LiveTokens(accessTokens, now))
    {
      var todo := accessTokens.Keys;
      while todo != {}
        invariant todo <= old(accessTokens).Keys
        invariant accessTokens == map k | k in old(accessTokens) && (k in todo || !TokenGone(old(accessTokens)[k], now)) :: old(accessTokens)[k]
      {
        var k :| k in todo;
        if now - (match accessTokens[k].issuedAt case Some(t) => t case None => 0) > M.ACCESS_TOKEN_TTL_MS {
          accessTokens := accessTokens - {k};
        }
        todo := todo - {k};
      }
    }

    /** POST /admin/revoke */
    method PostRevoke(now: int, idx: Option<int>) returns (response: M.Response)
      requires Valid()
      modifies this, statusList.bytes
      ensures Valid() && (Abs(), response) == M.Step(cfg, old(Abs()), now, M.PostRevoke(idx))
    {
      hide M.Wf, Packs, Holds, RefsView, FlightsView, CodesView;
      if idx.None? {
        return M.Failed(400, M.InvalidRequest);
      }
      ghost var bytes := statusList.bytes[..];
      ghost var records := HeapView(heap);
      var ok := statusList.SetStatus(idx.value, true);
      assert HeapView(heap) == records;
      hide HeapView;
      if ok {
        PacksOneMore(bytes, revoked, idx.value);
        revoked := revoked + {idx.value};
        response := M.Revoked(idx.value);
      } else {
        response := M.Failed(400, M.InvalidRequest);
      }
    }

    /** The bytes that GET /statuslist signs. */
    method GetStatusList(now: int) returns (bytes: seq<bv8>)
      requires Valid()
      ensures M.Step(cfg, Abs(), now, M.GetStatusList) == (Abs(), M.StatusList(revoked)) && Packs(bytes, revoked)
    {
      bytes := statusList.bytes[..];
    }
  }

  lemma TokenAdd(i: Issuer, token: string, p: PendingRecord)
    requires i.Valid() && Known(i.heap, p)
    ensures Holds(i.heap, i.offers, i.authCodes, i.accessTokens[token := p], i.handlers)
    ensures RefsView(i.accessTokens[token := p]) == i.Abs().accessTokens[token := p.ref]
    ensures |i.Abs().accessTokens| == |i.accessTokens|
    ensures forall r :: 0 <= r < |i.heap| ==> HeapView(i.heap).Keys >= {r} && HeapView(i.heap)[r] == i.heap[r].View() && (r != p.ref ==> i.heap[r] != p)
    ensures forall r :: r in HeapView(i.heap) <==> 0 <= r < |i.heap|
  {
    SizeOfRefs(i.accessTokens);
    hide M.Wf, Packs;
  }

  /** Writing one record writes one entry of the heap. */
  lemma HeapSet(heap: seq<PendingRecord>, p: PendingRecord, before: map<M.Ref, M.Pending>)
    requires Known(heap, p) && forall r :: r in before <==> 0 <= r < |heap|
    requires forall r :: 0 <= r < |heap| && r != p.ref ==> before[r] == heap[r].View()
    ensures HeapView(heap) == before[p.ref := p.View()]
  {
  }

  lemma FindRecord(i: Issuer, p: PendingRecord)
    requires i.Valid() && Known(i.heap, p)
    ensures p.ref in i.Abs().heap && i.Abs().heap[p.ref] == p.View()
  {
    hide M.Wf, Packs, Holds, RefsView, CodesView, FlightsView;
  }

  lemma FindCode(i: Issuer, code: string)
    requires i.Valid()
    ensures code in i.authCodes <==> code in i.Abs().authCodes
    ensures code in i.authCodes ==> Known(i.heap, i.authCodes[code].pending) && i.Abs().authCodes[code] == CodeView(i.authCodes[code])
  {
    hide M.Wf, Packs, Known, HeapView, FlightsView, RefsView;
  }

  lemma FindOffer(i: Issuer, code: string)
    requires i.Valid()
    ensures code in i.offers <==> code in i.Abs().offers
    ensures code in i.offers ==>
              var p := i.offers[code];
              Known(i.heap, p) && i.Abs().offers[code] == p.ref && p.ref in i.Abs().heap && i.Abs().heap[p.ref] == p.View()
  {
    if code in i.offers { FindRecord(i, i.offers[code]); }
    hide M.Wf, Packs, Known, HeapView, FlightsView, CodesView;
  }

  lemma FindToken(i: Issuer, token: string)
    requires i.Valid()
    ensures token in i.accessTokens <==> token in i.Abs().accessTokens
    ensures token in i.accessTokens ==>
              var p := i.accessTokens[token];
              Known(i.heap, p) && i.Abs().accessTokens[token] == p.ref && p.ref in i.Abs().heap && i.Abs().heap[p.ref] == p.View()
  {
    if token in i.accessTokens { FindRecord(i, i.accessTokens[token]); }
    hide M.Wf, Packs, Known, HeapView, FlightsView, CodesView;
  }

  lemma FindHandler(i: Issuer, q: nat)
    requires i.Valid()
    ensures q in i.handlers <==> q in i.Abs().flights
    ensures i.Abs().nextStatusIdx == i.nextStatusIdx
    ensures M.Perform(i.Abs(), M.Nothing) == i.Abs()
    ensures q in i.handlers ==>
              var p := i.handlers[q].pending;
              Known(i.heap, p) && i.Abs().flights[q] == FlightView(i.handlers[q]) && p.ref in i.Abs().heap && i.Abs().heap[p.ref] == p.View()
  {
    if q in i.handlers { FindRecord(i, i.handlers[q].pending); }
    hide M.Wf, Packs, Known, HeapView, CodesView;
  }

  lemma TokenDrop(i: Issuer, token: string)
    requires i.Valid()
    ensures Holds(i.heap, i.offers, i.authCodes, i.accessTokens - {token}, i.handlers)
    ensures M.Perform(i.Abs(), M.DropToken(token)) ==
            StateOf(HeapView(i.heap), |i.heap|, i.offers, i.parRequests, i.authCodes, i.accessTokens - {token},
                    i.handlers, i.nextStatusIdx, i.issuedRecords, i.revoked)
  {
    hide Known, HeapView, M.Wf, Packs;
    assert RefsView(i.accessTokens - {token}) == RefsView(i.accessTokens) - {token};
  }

  lemma HandlerAdd(i: Issuer, token: string, q: nat, p: PendingRecord)
    requires i.Valid() && Known(i.heap, p)
    ensures Holds(i.heap, i.offers, i.authCodes, i.accessTokens - {token}, i.handlers[q := ImportingKey(p)])
    ensures M.Perform(i.Abs(), M.TokenToFlight(token, q, M.ImportingKey(p.ref))) ==
            StateOf(HeapView(i.heap), |i.heap|, i.offers, i.parRequests, i.authCodes, i.accessTokens - {token},
                    i.handlers[q := ImportingKey(p)], i.nextStatusIdx, i.issuedRecords, i.revoked)
  {
    hide Known, HeapView, M.Wf, Packs;
    assert RefsView(i.accessTokens - {token}) == RefsView(i.accessTokens) - {token};
    assert FlightsView(i.handlers[q := ImportingKey(p)]) == FlightsView(i.handlers)[q := M.ImportingKey(p.ref)];
  }

  lemma HandlerSet(i: Issuer, q: nat, h: Handler)
    requires i.Valid() && Known(i.heap, h.pending)
    ensures Holds(i.heap, i.offers, i.authCodes, i.accessTokens, i.handlers[q := h])
    ensures M.Perform(i.Abs(), M.SetFlight(q, FlightView(h))) ==
            StateOf(HeapView(i.heap), |i.heap|, i.offers, i.parRequests, i.authCodes, i.accessTokens, i.handlers[q := h],
                    i.nextStatusIdx, i.issuedRecords, i.revoked)
  {
    hide Known, HeapView, M.Wf, Packs;
    assert FlightsView(i.handlers[q := h]) == FlightsView(i.handlers)[q := FlightView(h)];
  }

  lemma Accepted(i: Issuer, q: nat, p: PendingRecord, entry: seq<M.IssuedRecord>)
    requires i.Valid() && Known(i.heap, p)
    ensures var h := Signing(p, i.nextStatusIdx);
            && Holds(i.heap, i.offers, i.authCodes, i.accessTokens, i.handlers[q := h])
            && M.Perform(i.Abs(), M.Accept(q, M.Signing(p.ref, i.nextStatusIdx), entry)) ==
               StateOf(HeapView(i.heap), |i.heap|, i.offers, i.parRequests, i.authCodes, i.accessTokens, i.handlers[q := h],
                       i.nextStatusIdx + 1, i.issuedRecords + entry, i.revoked)
  {
    hide Known, HeapView, M.Wf, Packs;
    var h := Signing(p, i.nextStatusIdx);
    assert FlightsView(i.handlers[q := h]) == FlightsView(i.handlers)[q := FlightView(h)];
  }

  lemma HandlerDrop(i: Issuer, q: nat)
    requires i.Valid()
    ensures Holds(i.heap, i.offers, i.authCodes, i.accessTokens, i.handlers - {q})
    ensures M.Perform(i.Abs(), M.EndFlight(q)) ==
            StateOf(HeapView(i.heap), |i.heap|, i.offers, i.parRequests, i.authCodes, i.accessTokens, i.handlers - {q},
                    i.nextStatusIdx, i.issuedRecords, i.revoked)
  {
    hide Known, HeapView, M.Wf, Packs;
    assert FlightsView(i.handlers - {q}) == FlightsView(i.handlers) - {q};
  }

  lemma Sent(i: Issuer, q: nat, entry: seq<M.IssuedRecord>)
    requires i.Valid()
    ensures M.Perform(i.Abs(), M.Send(q, entry)) ==
            StateOf(HeapView(i.heap), |i.heap|, i.offers, i.parRequests, i.authCodes, i.accessTokens, i.handlers - {q},
                    i.nextStatusIdx, i.issuedRecords + entry, i.revoked)
  {
    hide Known, HeapView, M.Wf, Packs;
    assert FlightsView(i.handlers - {q}) == FlightsView(i.handlers) - {q};
  }

  predicate OfferGone(p: PendingRecord, now: int) { M.Age(now, p.createdAt) > M.PRE_AUTH_CODE_TTL_MS }

  predicate TokenGone(p: PendingRecord, now: int)
    reads p
  {
    M.Age(now, p.issuedAt) > M.ACCESS_TOKEN_TTL_MS
  }

  ghost function LiveOffers(store: map<string, PendingRecord>, now: int): map<string, PendingRecord> {
    map k | k in store && !OfferGone(store[k], now) :: store[k]
  }

  ghost function LivePars(store: map<string, M.ParRequest>, now: int): map<string, M.ParRequest> {
    map k | k in store && !M.ParExpired(now, store[k]) :: store[k]
  }

  ghost function LiveCodes(store: map<string, CodeEntry>, now: int): map<string, CodeEntry> {
    map k | k in store && !M.CodeExpired(now, CodeView(store[k])) :: store[k]
  }

  ghost function LiveTokens(store: map<string, PendingRecord>, now: int): map<string, PendingRecord>
    reads store.Values
  {
    map k | k in store && !TokenGone(store[k], now) :: store[k]
  }

  lemma SweptOffers(i: Issuer, now: int)
    requires i.Valid()
    ensures M.Perform(i.Abs(), M.DropExpired(now)).offers == RefsView(LiveOffers(i.offers, now))
  {
    var s := i.Abs();
    forall k | k in i.offers
      ensures M.OfferExpired(s, now, s.offers[k]) == OfferGone(i.offers[k], now)
    {
      FindOffer(i, k);
    }
    hide M.Wf, Packs, HeapView, Known, OfferGone, M.OfferExpired, Holds, CodesView, FlightsView;
  }

  lemma SweptCodes(i: Issuer, now: int)
    requires i.Valid()
    ensures M.Perform(i.Abs(), M.DropExpired(now)).authCodes == CodesView(LiveCodes(i.authCodes, now))
  {
    hide M.Wf, Packs, HeapView, Known, Holds, RefsView, FlightsView, M.CodeExpired;
  }

  lemma SweptTokens(i: Issuer, now: int)
    requires i.Valid()
    ensures M.Perform(i.Abs(), M.DropExpired(now)).accessTokens == RefsView(LiveTokens(i.accessTokens, now))
  {
    var s := i.Abs();
    forall k | k in i.accessTokens
      ensures M.TokenExpired(s, now, s.accessTokens[k]) == TokenGone(i.accessTokens[k], now)
    {
      FindToken(i, k);
    }
    hide M.Wf, Packs, HeapView, Known, TokenGone, M.TokenExpired, Holds, CodesView, FlightsView;
  }

  lemma Swept(i: Issuer, now: int)
    requires i.Valid()
    ensures var offers, codes, tokens := LiveOffers(i.offers, now), LiveCodes(i.authCodes, now), LiveTokens(i.accessTokens, now);
            var pars := LivePars(i.parRequests, now);
            && Holds(i.heap, offers, codes, tokens, i.handlers)
            && M.Perform(i.Abs(), M.DropExpired(now)) ==
               StateOf(HeapView(i.heap), |i.heap|, offers, pars, codes, tokens, i.handlers, i.nextStatusIdx, i.issuedRecords, i.revoked)
  {
    SweptOffers(i, now);
    SweptCodes(i, now);
    SweptTokens(i, now);
    hide M.Wf, Packs, HeapView, Known, OfferGone, TokenGone, RefsView, CodesView, FlightsView, M.OfferExpired, M.TokenExpired, M.CodeExpired;
  }

  lemma OfferAdd(i: Issuer, heap: seq<PendingRecord>, code: string, p: PendingRecord, record: M.Pending)
    requires i.Valid() && p.ref == |i.heap|
    requires Holds(heap, i.offers, i.authCodes, i.accessTokens, i.handlers) && Known(heap, p)
    ensures Holds(heap, i.offers[code := p], i.authCodes, i.accessTokens, i.handlers)
    ensures var n := |i.heap|;
            M.Perform(i.Abs(), M.AddOffer(code, record)) ==
            StateOf(HeapView(i.heap)[n := record], n + 1, i.offers[code := p], i.parRequests, i.authCodes, i.accessTokens,
                    i.handlers, i.nextStatusIdx, i.issuedRecords, i.revoked)
  {
    hide Known, HeapView, M.Wf, Packs;
    assert RefsView(i.offers[code := p]) == RefsView(i.offers)[code := p.ref];
  }

  /** What the stores look like to the model when a grant is dropped. */
  lemma GrantDrop(i: Issuer, grant: M.Grant)
    requires i.Valid()
    ensures var offers := if grant.PreAuthorizedCode? then i.offers - {grant.preAuthCode} else i.offers;
            var codes := if grant.AuthorizationCode? then i.authCodes - {grant.code} else i.authCodes;
            && Holds(i.heap, offers, codes, i.accessTokens, i.handlers)
            && M.Perform(i.Abs(), M.Nothing) == i.Abs()
            && M.Perform(i.Abs(), M.DropGrant(grant)) ==
               StateOf(HeapView(i.heap), |i.heap|, offers, i.parRequests, codes, i.accessTokens,
                       i.handlers, i.nextStatusIdx, i.issuedRecords, i.revoked)
  {
    hide Known, HeapView, M.Wf, Packs;
    assert RefsView(i.offers - M.OfferKeys(grant)) == RefsView(i.offers) - M.OfferKeys(grant);
    assert CodesView(i.authCodes - M.CodeKeys(grant)) == CodesView(i.authCodes) - M.CodeKeys(grant);
    assert grant.PreAuthorizedCode? ==> i.authCodes - M.CodeKeys(grant) == i.authCodes;
    assert grant.AuthorizationCode? ==> i.offers - M.OfferKeys(grant) == i.offers;
  }

  /** Taking the grant and then giving the token is the step the model makes. */
  lemma TokenAfterGrant(cfg: M.Config, s: M.State, now: int, grant: M.Grant, r: M.Ref, token: string, nonce: string)
    requires M.Wf(s) && M.Redeem(cfg, s, now, grant) == M.Redeemed(r)
    ensures r in s.heap
    ensures var s1 := M.Perform(s, M.DropGrant(grant));
            var record := s1.heap[r].(accessToken := Some(token), cNonce := Some(nonce), issuedAt := Some(now));
            M.Step(cfg, s, now, M.PostToken(grant, token, nonce)) ==
            if |s1.accessTokens| >= M.MAX_MAP_SIZE
            then (s1.(heap := s1.heap[r := record]), M.Failed(429, M.TooManyRequests))
            else (s1.(heap := s1.heap[r := record], accessTokens := s1.accessTokens[token := r]), M.TokenIssued(token, nonce))
  {
    M.RedeemedIsGrantRef(cfg, s, now, grant);
    hide M.Redeem;
  }

  lemma CodeAdd(i: Issuer, heap: seq<PendingRecord>, uri: string, code: string, entry: CodeEntry, record: M.Pending)
    requires i.Valid()
    requires Holds(heap, i.offers, i.authCodes, i.accessTokens, i.handlers) && Known(heap, entry.pending)
    ensures Holds(heap, i.offers, i.authCodes[code := entry], i.accessTokens, i.handlers)
    ensures var n := |i.heap|;
            M.Perform(i.Abs(), M.ParToCode(uri, code, CodeView(entry), record)) ==
            StateOf(HeapView(i.heap)[n := record], n + 1, i.offers, i.parRequests - {uri}, i.authCodes[code := entry], i.accessTokens,
                    i.handlers, i.nextStatusIdx, i.issuedRecords, i.revoked)
  {
    hide Known, HeapView, M.Wf, Packs;
    assert CodesView(i.authCodes[code := entry]) == CodesView(i.authCodes)[code := CodeView(entry)];
  }

  lemma SizeOfRefs(store: map<string, PendingRecord>)
    ensures |RefsView(store)| == |store|
  {
    assert RefsView(store).Keys == store.Keys;
    assert |store.Keys| == |store| && |RefsView(store).Keys| == |RefsView(store)|;
  }

  lemma SizeOfCodes(store: map<string, CodeEntry>)
    ensures |CodesView(store)| == |store|
  {
    assert CodesView(store).Keys == store.Keys;
    assert |store.Keys| == |store| && |CodesView(store).Keys| == |CodesView(store)|;
  }
}
