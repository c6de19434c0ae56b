/** What a relying party may conclude from an SD-JWT verification, and what a holder may expect of one. */
module SdJwtTheorems {
  import opened Basics
  import opened CompactForm
  import opened Crypto
  import opened SdJwt

  // -------------------------------------------------- the disclosure loop

  /** Disclosure `d` puts `value` under `name` because the signed payload commits to `d`. */
  ghost predicate Commits(s: Suite, sd: set<string>, d: string, name: string, value: Json) {
    s.hash(d) in sd && exists salt :: s.decode(d) == Some(Disclosure(salt, name, value))
  }

  lemma {:induction false} ScanIsCommitted(s: Suite, sd: set<string>, ds: seq<string>, name: string)
    requires name in Scan(s, sd, ds).claims
    ensures exists d :: d in ds && Commits(s, sd, d, name, Scan(s, sd, ds).claims[name])
  {
    if ds != [] {
      var init, last := ds[..|ds| - 1], ds[|ds| - 1];
      var acc := Scan(s, sd, init);
      if !acc.threw && s.decode(last).Some? && s.hash(last) in sd && s.decode(last).value.name == name {
        assert s.decode(last) == Some(Disclosure(s.decode(last).value.salt, name, Scan(s, sd, ds).claims[name]));
        assert Commits(s, sd, last, name, Scan(s, sd, ds).claims[name]);
      } else {
        ScanIsCommitted(s, sd, init, name);
      }
    }
  }

  lemma {:induction false} ScanIsClean(s: Suite, sd: set<string>, ds: seq<string>)
    ensures !Scan(s, sd, ds).threw && Scan(s, sd, ds).errors == [] <==>
            forall d :: d in ds ==> s.hash(d) in sd && s.decode(d).Some?
  {
    if ds != [] {
      var init := ds[..|ds| - 1];
      ScanIsClean(s, sd, init);
      assert ds == init + [ds[|ds| - 1]];
    }
  }

  // ----------------------------------------------------------- soundness

  /** For any text at all, and whether or not the verdict is valid: a claim is reported only if the
      payload that the issuer's key signed commits to the disclosure it was read from. */
  lemma DisclosedClaimsAreCommitted(s: Suite, presentation: string, issuerJwk: Json, audience: string, nonce: string, now: int)
    ensures var r := Verify(s, presentation, issuerJwk, audience, nonce, now);
            forall n :: n in r.disclosedClaims ==>
              var payload := s.open(Parse(presentation).jws, issuerJwk, SD_JWT_VC_TYP, now);
              payload.Some? && SdSet(payload.value).Some? &&
              exists d :: d in Parse(presentation).disclosures && Commits(s, SdSet(payload.value).value, d, n, r.disclosedClaims[n])
  {
    var r := Verify(s, presentation, issuerJwk, audience, nonce, now);
    forall n | n in r.disclosedClaims
      ensures var payload := s.open(Parse(presentation).jws, issuerJwk, SD_JWT_VC_TYP, now);
              payload.Some? && SdSet(payload.value).Some? &&
              exists d :: d in Parse(presentation).disclosures && Commits(s, SdSet(payload.value).value, d, n, r.disclosedClaims[n])
    {
      var payload := s.open(Parse(presentation).jws, issuerJwk, SD_JWT_VC_TYP, now).value;
      ScanIsCommitted(s, SdSet(payload).value, Parse(presentation).disclosures, n);
    }
  }

  function ClaimsMap(claims: seq<(string, Json)>): Payload {
    if claims == [] then map[]
    else ClaimsMap(claims[..|claims| - 1])[claims[|claims| - 1].0 := claims[|claims| - 1].1]
  }

  lemma {:induction false} ClaimsMapHas(claims: seq<(string, Json)>, i: nat)
    requires UniqueNames(claims) && i < |claims|
    ensures claims[i].0 in ClaimsMap(claims) && ClaimsMap(claims)[claims[i].0] == claims[i].1
  {
    var n := |claims| - 1;
    if i < n {
      ClaimsMapHas(claims[..n], i);
    }
  }

  /** Of these texts, those that open under this key as credentials came out of these issuer calls. */
  ghost predicate SignedOnly(s: Suite, issuerJwk: Json, texts: set<string>, issued: set<Issuance>) {
    forall jws, now :: jws in texts && s.open(jws, issuerJwk, SD_JWT_VC_TYP, now).Some? ==>
      exists i :: i in issued && ValidIssuance(i) && "_sd" !in i.cred.alwaysDisclosed &&
                  CredentialPayload(s, i) == s.open(jws, issuerJwk, SD_JWT_VC_TYP, now).value
  }

  predicate Ascending(xs: seq<string>) {
    forall k :: 0 <= k < |xs| - 1 ==> Before(xs[k], xs[k + 1])
  }

  lemma {:induction false} BeforeIsTotal(a: string, b: string)
    ensures Before(a, b) || Before(b, a)
  {
    if a != "" && b != "" && a[0] == b[0] {
      BeforeIsTotal(a[1..], b[1..]);
    }
  }

  lemma {:induction false} InsertKeepsOrder(x: string, sorted: seq<string>)
    requires Ascending(sorted)
    ensures Ascending(Insert(x, sorted)) && multiset(Insert(x, sorted)) == multiset(sorted) + multiset{x}
    ensures Insert(x, sorted)[0] == x || (sorted != [] && Insert(x, sorted)[0] == sorted[0])
  {
    hide Before;
    if sorted != [] {
      BeforeIsTotal(x, sorted[0]);
      assert sorted == [sorted[0]] + sorted[1..];
      assert forall k :: 0 <= k < |sorted| - 1 ==> sorted[1..][k] == sorted[k + 1];
      assert Ascending(sorted[1..]);
      if !Before(x, sorted[0]) {
        InsertKeepsOrder(x, sorted[1..]);
        var rest := Insert(x, sorted[1..]);
        assert Insert(x, sorted) == [sorted[0]] + rest;
        assert Before(sorted[0], rest[0]);
      }
    }
  }

  /** The digests are listed in ascending order, each as often as it was made: their order says nothing of the claims'. */
  lemma {:induction false} DigestsAreSorted(xs: seq<string>)
    ensures Ascending(Sorted(xs)) && multiset(Sorted(xs)) == multiset(xs)
  {
    if xs != [] {
      DigestsAreSorted(xs[1..]);
      InsertKeepsOrder(xs[0], Sorted(xs[1..]));
      assert xs == [xs[0]] + xs[1..];
    }
  }

  /** The issued text, read back: a JWS over the sorted digests, and one disclosure per claim with its own salt. */
  lemma IssuedTextReadsBack(s: Suite, key: PrivateKey, i: Issuance)
    requires DisclosuresDecode(s) && SignaturesOpen(s) && PayloadIsInTheText(s) && ValidIssuance(i)
    ensures var c := Parse(Issue(s, key, i));
            && s.peek(c.jws) == Some(CredentialPayload(s, i)) && c.kbJwt == None && |c.disclosures| == |i.cred.claims|
            && (forall k :: 0 <= k < |c.disclosures| ==>
                  s.decode(c.disclosures[k]) == Some(Disclosure(i.salts[k], i.cred.claims[k].0, i.cred.claims[k].1)))
            && ("_sd" !in i.cred.alwaysDisclosed ==>
                  exists digests: seq<string> ::
                    && Ascending(digests) && multiset(digests) == multiset(Digests(s, Entries(i.cred.claims, i.salts)))
                    && Get(CredentialPayload(s, i), "_sd") == Some(Arr(Strings(digests))))
  {
    var jws := s.sign(key, SD_JWT_VC_TYP, CredentialPayload(s, i));
    var entries := Entries(i.cred.claims, i.salts);
    assert Issue(s, key, i) == PresentationHead(jws, Encoded(s, entries)) + "";
    IssueParses(s, jws, entries, "");
    DigestsAreSorted(Digests(s, entries));
    var digests := Sorted(Digests(s, entries));
    hide Sorted, Issue, Parse, PresentationHead, Ascending, SignaturesOpen;
    assert "_sd" !in i.cred.alwaysDisclosed ==> Get(CredentialPayload(s, i), "_sd") == Some(Arr(Strings(digests)));
  }

  lemma CommittedMembers(s: Suite, i: Issuance)
    requires ValidIssuance(i) && "_sd" !in i.cred.alwaysDisclosed
    ensures SdSet(CredentialPayload(s, i)).Some?
    ensures forall h :: h in SdSet(CredentialPayload(s, i)).value <==> h in Digests(s, Entries(i.cred.claims, i.salts))
  {
    var digests := Digests(s, Entries(i.cred.claims, i.salts));
    var arr := Strings(Sorted(digests));
    assert CredentialPayload(s, i)["_sd"] == Arr(arr);
    forall h
      ensures h in SdSet(CredentialPayload(s, i)).value <==> h in digests
    {
      SortedMembers(digests, h);
      if h in Sorted(digests) {
        var k :| 0 <= k < |Sorted(digests)| && Sorted(digests)[k] == h;
        assert arr[k] == Str(h);
      }
    }
  }

  lemma CommittedClaimIsIssued(s: Suite, i: Issuance, d: string, name: string, value: Json)
    requires CollisionFree(s.hash) && DisclosuresDecode(s)
    requires ValidIssuance(i) && "_sd" !in i.cred.alwaysDisclosed
    requires SdSet(CredentialPayload(s, i)).Some? && Commits(s, SdSet(CredentialPayload(s, i)).value, d, name, value)
    ensures name in ClaimsMap(i.cred.claims) && value == ClaimsMap(i.cred.claims)[name]
  {
    CommittedMembers(s, i);
    var entries := Entries(i.cred.claims, i.salts);
    var k :| 0 <= k < |entries| && Digests(s, entries)[k] == s.hash(d);
    assert d == s.encode(entries[k]);
    ClaimsMapHas(i.cred.claims, k);
  }

  predicate PartOf(some: Payload, all: Payload) {
    forall n :: n in some ==> n in all && some[n] == all[n]
  }

  /** Let `texts` be the JWS texts in existence, and let the issuer's key have signed no credential among them other
      than those issued. What any presentation discloses, even an invalid one, are claims that one single
      credential of this issuer really contains. */
  lemma OnlyIssuedClaimsAreDisclosed(
    s: Suite, presentation: string, issuerJwk: Json, audience: string, nonce: string, now: int,
    texts: set<string>, issued: set<Issuance>)
    requires CollisionFree(s.hash) && DisclosuresDecode(s) && SignedOnly(s, issuerJwk, texts, issued) && Parse(presentation).jws in texts
    ensures var disclosed := Verify(s, presentation, issuerJwk, audience, nonce, now).disclosedClaims;
            disclosed == map[] || exists i :: i in issued && PartOf(disclosed, ClaimsMap(i.cred.claims))
  {
    var disclosed := Verify(s, presentation, issuerJwk, audience, nonce, now).disclosedClaims;
    var jws := Parse(presentation).jws;
    if s.open(jws, issuerJwk, SD_JWT_VC_TYP, now).Some? {
      var payload := s.open(jws, issuerJwk, SD_JWT_VC_TYP, now).value;
      var i :| i in issued && ValidIssuance(i) && "_sd" !in i.cred.alwaysDisclosed && CredentialPayload(s, i) == payload;
      DisclosedClaimsAreCommitted(s, presentation, issuerJwk, audience, nonce, now);
      forall n | n in disclosed
        ensures n in ClaimsMap(i.cred.claims) && disclosed[n] == ClaimsMap(i.cred.claims)[n]
      {
        var d :| Commits(s, SdSet(payload).value, d, n, disclosed[n]);
        CommittedClaimIsIssued(s, i, d, n, disclosed[n]);
      }
    }
  }

  // ---------------------------------------------------- the exact verdict

  /** The conditions a relying party relies on, stated without the verifier's control flow. */
  ghost predicate Acceptable(s: Suite, payload: Payload, c: Compact, head: string, audience: string, nonce: string, now: int) {
    var sd, jwk := SdSet(payload), HolderJwk(payload);
    && !("nbf" in payload && payload["nbf"].Num? && payload["nbf"].n > now)
    && !("exp" in payload && payload["exp"].Num? && payload["exp"].n != 0 && payload["exp"].n < now)
    && (Truthy(Get(payload, "_sd_alg")) ==> payload["_sd_alg"] == Str("sha-256"))
    && sd.Some? && (forall d :: d in c.disclosures ==> s.hash(d) in sd.value && s.decode(d).Some?)
    && c.kbJwt.Some? && Truthy(jwk) && s.open(c.kbJwt.value, jwk.value, KB_JWT_TYP, now).Some?
    && var kb := s.open(c.kbJwt.value, jwk.value, KB_JWT_TYP, now).value;
       && "iat" in kb && kb["iat"].Num? && now - 300 <= kb["iat"].n <= now + 60
       && Get(kb, "aud") == Some(Str(audience)) && Get(kb, "nonce") == Some(Str(nonce))
       && Get(kb, "sd_hash") == Some(Str(s.hash(head)))
  }

  lemma ValidByStages(s: Suite, presentation: string, issuerJwk: Json, audience: string, nonce: string, now: int)
    ensures var jwt, c := s.open(Parse(presentation).jws, issuerJwk, SD_JWT_VC_TYP, now), Parse(presentation);
            Verify(s, presentation, issuerJwk, audience, nonce, now).valid <==>
            && jwt.Some? && SdSet(jwt.value).Some?
            && HeaderErrors(jwt.value, now) == [] && ExpiryErrors(jwt.value, now) == []
            && !Scan(s, SdSet(jwt.value).value, c.disclosures).threw
            && Scan(s, SdSet(jwt.value).value, c.disclosures).errors == []
            && var holder := HolderStage(s, jwt.value, c.kbJwt, HeadOf(presentation), audience, nonce, now);
               !holder.threw && holder.errors == []
  {
  }

  /** `valid` means exactly: the issuer's key opens the JWS and its payload makes the text acceptable. */
  lemma ValidExactlyWhenAcceptable(s: Suite, presentation: string, issuerJwk: Json, audience: string, nonce: string, now: int)
    ensures var jwt := s.open(Parse(presentation).jws, issuerJwk, SD_JWT_VC_TYP, now);
            Verify(s, presentation, issuerJwk, audience, nonce, now).valid <==>
            jwt.Some? && Acceptable(s, jwt.value, Parse(presentation), HeadOf(presentation), audience, nonce, now)
  {
    ValidByStages(s, presentation, issuerJwk, audience, nonce, now);
    var c := Parse(presentation);
    var jwt := s.open(c.jws, issuerJwk, SD_JWT_VC_TYP, now);
    if jwt.Some? {
      StagesAreClean(s, jwt.value, c, HeadOf(presentation), audience, nonce, now);
    }
  }

  lemma StagesAreClean(s: Suite, payload: Payload, c: Compact, head: string, audience: string, nonce: string, now: int)
    ensures Acceptable(s, payload, c, head, audience, nonce, now) <==>
            && SdSet(payload).Some? && HeaderErrors(payload, now) == [] && ExpiryErrors(payload, now) == []
            && !Scan(s, SdSet(payload).value, c.disclosures).threw
            && Scan(s, SdSet(payload).value, c.disclosures).errors == []
            && var holder := HolderStage(s, payload, c.kbJwt, head, audience, nonce, now);
               !holder.threw && holder.errors == []
  {
    HolderIsClean(s, payload, c.kbJwt, head, audience, nonce, now);
    if SdSet(payload).Some? {
      ScanIsClean(s, SdSet(payload).value, c.disclosures);
    }
  }

  lemma HolderIsClean(s: Suite, payload: Payload, kbJwt: Option<string>, head: string, audience: string, nonce: string, now: int)
    ensures var st, jwk := HolderStage(s, payload, kbJwt, head, audience, nonce, now), HolderJwk(payload);
            !st.threw && st.errors == [] <==>
            && kbJwt.Some? && Truthy(jwk) && s.open(kbJwt.value, jwk.value, KB_JWT_TYP, now).Some?
            && var kb := s.open(kbJwt.value, jwk.value, KB_JWT_TYP, now).value;
               && FreshKb(kb, now)
               && Get(kb, "aud") == Some(Str(audience)) && Get(kb, "nonce") == Some(Str(nonce))
               && Get(kb, "sd_hash") == Some(Str(s.hash(head)))
  {
  }

  lemma {:induction false} ScanTells(s: Suite, sd: set<string>, ds: seq<string>, e: Error)
    requires !Scan(s, sd, ds).threw
    ensures e in Scan(s, sd, ds).errors <==> e.NotCommitted? && exists d :: d in ds && s.hash(d) !in sd && s.decode(d).Some? && s.decode(d).value.name == e.name
  {
    if ds != [] {
      var before, d := ds[..|ds| - 1], ds[|ds| - 1];
      ScanTells(s, sd, before, e);
      assert ds == before + [d];
    }
  }

  /** The digests that a payload commits to: the strings of its `_sd` array, none when that is absent or null, the single
      characters of a string; and any other value makes the verifier throw. */
  lemma CommittedDigests(payload: Payload, digest: string)
    ensures var sd := Get(payload, "_sd");
            && (SdSet(payload).None? <==> sd.Some? && (sd.value.Bool? || sd.value.Num? || sd.value.Obj?))
            && (SdSet(payload).Some? ==>
                  (digest in SdSet(payload).value <==>
                     sd.Some? && ((sd.value.Arr? && Str(digest) in sd.value.a) || (sd.value.Str? && |digest| == 1 && digest[0] in sd.value.s))))
  {
    assert |digest| == 1 ==> digest == [digest[0]];
  }

  /** What each error of a verification that ran to its end says. */
  ghost predicate Told(s: Suite, payload: Payload, c: Compact, head: string, audience: string, nonce: string, now: int, e: Error)
    requires SdSet(payload).Some? && (c.kbJwt.Some? && Truthy(HolderJwk(payload)) ==> s.open(c.kbJwt.value, HolderJwk(payload).value, "kb+jwt", now).Some?)
  {
    var bound := c.kbJwt.Some? && Truthy(HolderJwk(payload));
    var kb: Payload := if bound then s.open(c.kbJwt.value, HolderJwk(payload).value, "kb+jwt", now).value else map[];
    match e
    case NotYetValid => "nbf" in payload && payload["nbf"].Num? && payload["nbf"].n > now
    case UnsupportedSdAlg => Truthy(Get(payload, "_sd_alg")) && payload["_sd_alg"] != Str("sha-256")
    case NotCommitted(name) =>
      exists d :: d in c.disclosures && s.hash(d) !in SdSet(payload).value && s.decode(d).Some? && s.decode(d).value.name == name
    case MissingKbJwt => c.kbJwt.None?
    case NoHolderKey => c.kbJwt.Some? && !Truthy(HolderJwk(payload))
    case StaleKbJwt => bound && !("iat" in kb && kb["iat"].Num? && now - 300 <= kb["iat"].n <= now + 60)
    case AudienceMismatch => bound && Get(kb, "aud") != Some(Str(audience))
    case NonceMismatch => bound && Get(kb, "nonce") != Some(Str(nonce))
    case SdHashMismatch => bound && Get(kb, "sd_hash") != Some(Str(s.hash(head)))
    case Expired => "exp" in payload && payload["exp"].Num? && payload["exp"].n != 0 && payload["exp"].n < now
    case VerificationFailed => false
  }

  /** When nothing threw, an error is reported exactly when it is so; when something threw, that is reported. */
  lemma ErrorsTellExactly(s: Suite, presentation: string, issuerJwk: Json, audience: string, nonce: string, now: int)
    ensures var c, jwt := Parse(presentation), s.open(Parse(presentation).jws, issuerJwk, "dc+sd-jwt", now);
            var r := Verify(s, presentation, issuerJwk, audience, nonce, now);
            if jwt.Some? && SdSet(jwt.value).Some? && (forall d :: d in c.disclosures ==> s.decode(d).Some?)
               && (c.kbJwt.Some? && Truthy(HolderJwk(jwt.value)) ==> s.open(c.kbJwt.value, HolderJwk(jwt.value).value, "kb+jwt", now).Some?)
            then forall e :: e in r.errors <==> Told(s, jwt.value, c, HeadOf(presentation), audience, nonce, now, e)
            else VerificationFailed in r.errors
  {
    var c, jwt := Parse(presentation), s.open(Parse(presentation).jws, issuerJwk, "dc+sd-jwt", now);
    if jwt.Some? && SdSet(jwt.value).Some? {
      JudgeTells(s, jwt.value, c, HeadOf(presentation), audience, nonce, now);
      hide Judge, Told, Parse, HeadOf, SdSet, HolderJwk;
    }
  }

  lemma {:induction false} ScanThrowsExactly(s: Suite, sd: set<string>, ds: seq<string>)
    ensures Scan(s, sd, ds).threw <==> exists d :: d in ds && s.decode(d).None?
  {
    if ds != [] {
      ScanThrowsExactly(s, sd, ds[..|ds| - 1]);
      assert ds == ds[..|ds| - 1] + [ds[|ds| - 1]];
    }
  }

  lemma HeaderTells(payload: Payload, now: int, e: Error)
    ensures e in HeaderErrors(payload, now) <==>
            || (e == NotYetValid && "nbf" in payload && payload["nbf"].Num? && payload["nbf"].n > now)
            || (e == UnsupportedSdAlg && Truthy(Get(payload, "_sd_alg")) && payload["_sd_alg"] != Str("sha-256"))
    ensures e in ExpiryErrors(payload, now) <==>
            e == Expired && "exp" in payload && payload["exp"].Num? && payload["exp"].n != 0 && payload["exp"].n < now
  {
  }

  lemma KbTells(s: Suite, kb: Payload, head: string, audience: string, nonce: string, now: int, e: Error)
    ensures e in KbErrors(s, kb, head, audience, nonce, now) <==>
            || (e == StaleKbJwt && !("iat" in kb && kb["iat"].Num? && now - 300 <= kb["iat"].n <= now + 60))
            || (e == AudienceMismatch && Get(kb, "aud") != Some(Str(audience)))
            || (e == NonceMismatch && Get(kb, "nonce") != Some(Str(nonce)))
            || (e == SdHashMismatch && Get(kb, "sd_hash") != Some(Str(s.hash(head))))
  {
  }

  lemma HolderTells(s: Suite, payload: Payload, c: Compact, head: string, audience: string, nonce: string, now: int, e: Error)
    requires SdSet(payload).Some? && (c.kbJwt.Some? && Truthy(HolderJwk(payload)) ==> s.open(c.kbJwt.value, HolderJwk(payload).value, KB_JWT_TYP, now).Some?)
    ensures !HolderStage(s, payload, c.kbJwt, head, audience, nonce, now).threw
    ensures e in HolderStage(s, payload, c.kbJwt, head, audience, nonce, now).errors <==>
            && (e == MissingKbJwt || e == NoHolderKey || e == StaleKbJwt || e == AudienceMismatch || e == NonceMismatch || e == SdHashMismatch)
            && Told(s, payload, c, head, audience, nonce, now, e)
  {
    if c.kbJwt.Some? && Truthy(HolderJwk(payload)) {
      KbTells(s, s.open(c.kbJwt.value, HolderJwk(payload).value, KB_JWT_TYP, now).value, head, audience, nonce, now, e);
    }
    hide SdSet, KbErrors, HolderJwk, Truthy;
  }

  lemma OneTells(s: Suite, payload: Payload, c: Compact, head: string, audience: string, nonce: string, now: int, e: Error)
    requires SdSet(payload).Some? && !Scan(s, SdSet(payload).value, c.disclosures).threw
    requires c.kbJwt.Some? && Truthy(HolderJwk(payload)) ==> s.open(c.kbJwt.value, HolderJwk(payload).value, KB_JWT_TYP, now).Some?
    ensures e in Judge(s, payload, c, head, audience, nonce, now).errors <==> Told(s, payload, c, head, audience, nonce, now, e)
  {
    var sd := SdSet(payload).value;
    ScanTells(s, sd, c.disclosures, e);
    HolderTells(s, payload, c, head, audience, nonce, now, e);
    HeaderTells(payload, now, e);
    var holder := HolderStage(s, payload, c.kbJwt, head, audience, nonce, now);
    assert Judge(s, payload, c, head, audience, nonce, now).errors ==
           HeaderErrors(payload, now) + Scan(s, sd, c.disclosures).errors + (holder.errors + ExpiryErrors(payload, now));
    hide Judge, Scan, SdSet, HolderStage, HeaderErrors, ExpiryErrors, HolderJwk, Truthy;
  }

  lemma ThrownTells(s: Suite, payload: Payload, c: Compact, head: string, audience: string, nonce: string, now: int)
    requires SdSet(payload).Some?
    requires || Scan(s, SdSet(payload).value, c.disclosures).threw
             || (c.kbJwt.Some? && Truthy(HolderJwk(payload)) && s.open(c.kbJwt.value, HolderJwk(payload).value, KB_JWT_TYP, now).None?)
    ensures VerificationFailed in Judge(s, payload, c, head, audience, nonce, now).errors
  {
    hide HolderJwk, Truthy, Scan, HeaderErrors, SdSet;
    var errors := Judge(s, payload, c, head, audience, nonce, now).errors;
    assert errors[|errors| - 1] == VerificationFailed;
  }

  lemma JudgeTells(s: Suite, payload: Payload, c: Compact, head: string, audience: string, nonce: string, now: int)
    requires SdSet(payload).Some?
    ensures var r := Judge(s, payload, c, head, audience, nonce, now);
            if (forall d :: d in c.disclosures ==> s.decode(d).Some?)
               && (c.kbJwt.Some? && Truthy(HolderJwk(payload)) ==> s.open(c.kbJwt.value, HolderJwk(payload).value, KB_JWT_TYP, now).Some?)
            then forall e :: e in r.errors <==> Told(s, payload, c, head, audience, nonce, now, e)
            else VerificationFailed in r.errors
  {
    ScanThrowsExactly(s, SdSet(payload).value, c.disclosures);
    hide Judge, Told, Scan, SdSet, HolderJwk, Truthy;
    if Scan(s, SdSet(payload).value, c.disclosures).threw
       || (c.kbJwt.Some? && Truthy(HolderJwk(payload)) && s.open(c.kbJwt.value, HolderJwk(payload).value, KB_JWT_TYP, now).None?)
    {
      ThrownTells(s, payload, c, head, audience, nonce, now);
    } else {
      forall e
        ensures e in Judge(s, payload, c, head, audience, nonce, now).errors <==> Told(s, payload, c, head, audience, nonce, now, e)
      {
        OneTells(s, payload, c, head, audience, nonce, now, e);
      }
    }
  }

  /** A key binding JWT fits one presentation only: whatever else is valid with the same one, under any issuer
      key and at any time, is the same string for the same audience and nonce. No disclosure can be added,
      dropped, replaced or moved. */
  lemma {:induction false} KeyBindingFitsOnePresentation(s: Suite, p: string, issuerJwk: Json, audience: string, nonce: string, now: int)
    requires CollisionFree(s.hash) && PayloadIsInTheText(s)
    requires Verify(s, p, issuerJwk, audience, nonce, now).valid
    ensures forall q, issuerQ, audience', nonce', now' ::
              Parse(q).kbJwt == Parse(p).kbJwt && Verify(s, q, issuerQ, audience', nonce', now').valid ==>
              q == p && audience' == audience && nonce' == nonce
  {
    ValidExactlyWhenAcceptable(s, p, issuerJwk, audience, nonce, now);
    HeadOfValid(s, p, issuerJwk, audience, nonce, now);
    forall q, issuerQ, audience', nonce', now' |
      Parse(q).kbJwt == Parse(p).kbJwt && Verify(s, q, issuerQ, audience', nonce', now').valid
      ensures q == p && audience' == audience && nonce' == nonce
    {
      ValidExactlyWhenAcceptable(s, q, issuerQ, audience', nonce', now');
      HeadOfValid(s, q, issuerQ, audience', nonce', now');
      hide Verify, Parse, HeadOf, SdSet, FreshKb;
      assert HeadOf(p) == HeadOf(q);
    }
  }

  lemma HeadOfValid(s: Suite, p: string, issuerJwk: Json, audience: string, nonce: string, now: int)
    requires Verify(s, p, issuerJwk, audience, nonce, now).valid
    ensures p == HeadOf(p) + LastPart(Parse(p))
  {
    ValidExactlyWhenAcceptable(s, p, issuerJwk, audience, nonce, now);
    SplitParts(p, '~');
    HeadIsPresentationHead(p);
  }

  /** Of these texts, those that open under this key as key binding JWTs were signed for one of these heads, audiences
      and nonces. */
  ghost predicate BoundOnly(s: Suite, holderJwk: Json, texts: set<string>, signed: set<(string, string, string)>) {
    forall kb, t :: kb in texts && s.open(kb, holderJwk, KB_JWT_TYP, t).Some? ==>
      exists h, a, n, t0 :: (h, a, n) in signed && s.open(kb, holderJwk, KB_JWT_TYP, t).value == KbPayload(s, h, a, n, t0)
  }

  /** Let the holder's key have signed key binding JWTs, among the texts in existence, for the heads in `signed` only.
      A valid presentation shows one of those heads, with its JWS and its disclosures in their order, for the
      audience and nonce it was signed for. */
  lemma HolderSignedWhatIsShown(
    s: Suite, presentation: string, issuerJwk: Json, holderJwk: Json, audience: string, nonce: string, now: int,
    texts: set<string>, signed: set<(string, string, string)>)
    requires CollisionFree(s.hash) && BoundOnly(s, holderJwk, texts, signed)
    requires Parse(presentation).kbJwt.Some? ==> Parse(presentation).kbJwt.value in texts
    requires Verify(s, presentation, issuerJwk, audience, nonce, now).valid
    requires HolderJwk(s.open(Parse(presentation).jws, issuerJwk, SD_JWT_VC_TYP, now).value) == Some(holderJwk)
    ensures (HeadOf(presentation), audience, nonce) in signed
    ensures var shown := Parse(HeadOf(presentation));
            shown.jws == Parse(presentation).jws && shown.disclosures == Parse(presentation).disclosures
  {
    ValidExactlyWhenAcceptable(s, presentation, issuerJwk, audience, nonce, now);
    var kbJwt := Parse(presentation).kbJwt.value;
    var h, a, n, t0 :| (h, a, n) in signed && s.open(kbJwt, holderJwk, KB_JWT_TYP, now).value == KbPayload(s, h, a, n, t0);
    assert s.hash(h) == s.hash(HeadOf(presentation));
    SplitParts(presentation, '~');
    HeadIsPresentationHead(presentation);
    PrintOfParse(presentation);
    var bare := Compact(Parse(presentation).jws, Parse(presentation).disclosures, None);
    assert Print(bare) == HeadOf(presentation);
    ParseOfPrint(bare);
  }

  // ------------------------------------------------------------ end to end

  function EntryMap(ds: seq<Disclosure>): Payload {
    if ds == [] then map[] else EntryMap(ds[..|ds| - 1])[ds[|ds| - 1].name := ds[|ds| - 1].value]
  }

  function KeepEntries(ds: seq<Disclosure>, wanted: seq<string>): seq<Disclosure> {
    if ds == [] then []
    else
      var kept, d := KeepEntries(ds[..|ds| - 1], wanted), ds[|ds| - 1];
      if d.name in wanted then kept + [d] else kept
  }

  /** The claims a holder asked to reveal. */
  function Restrict(claims: Payload, wanted: seq<string>): Payload {
    map n | n in claims && n in wanted :: claims[n]
  }

  lemma {:induction false} EntriesAreClaims(claims: seq<(string, Json)>, salts: seq<string>)
    requires |salts| == |claims|
    ensures EntryMap(Entries(claims, salts)) == ClaimsMap(claims)
  {
    var n := |claims| - 1;
    if claims != [] {
      assert Entries(claims, salts)[..n] == Entries(claims[..n], salts[..n]);
      EntriesAreClaims(claims[..n], salts[..n]);
    }
  }

  lemma {:induction false} KeepIsRestrict(ds: seq<Disclosure>, wanted: seq<string>)
    ensures EntryMap(KeepEntries(ds, wanted)) == Restrict(EntryMap(ds), wanted)
    ensures forall d :: d in KeepEntries(ds, wanted) ==> d in ds
  {
    if ds != [] {
      KeepIsRestrict(ds[..|ds| - 1], wanted);
    }
  }

  lemma {:induction false} KeepOfEncoded(s: Suite, ds: seq<Disclosure>, wanted: seq<string>)
    requires DisclosuresDecode(s)
    ensures Keep(s, Encoded(s, ds), wanted) == Some(Encoded(s, KeepEntries(ds, wanted)))
  {
    var n := |ds| - 1;
    if ds != [] {
      assert Encoded(s, ds)[..n] == Encoded(s, ds[..n]);
      KeepOfEncoded(s, ds[..n], wanted);
      var kept := KeepEntries(ds[..n], wanted);
      assert Encoded(s, kept + [ds[n]]) == Encoded(s, kept) + [s.encode(ds[n])];
    } else {
      assert Encoded(s, ds) == [];
    }
  }

  lemma {:induction false} ScanOfEncoded(s: Suite, sd: set<string>, ds: seq<Disclosure>)
    requires DisclosuresDecode(s)
    requires forall d :: d in ds ==> s.hash(s.encode(d)) in sd
    ensures Scan(s, sd, Encoded(s, ds)) == Stage(EntryMap(ds), [], false)
  {
    var n := |ds| - 1;
    if ds != [] {
      assert Encoded(s, ds)[..n] == Encoded(s, ds[..n]);
      ScanOfEncoded(s, sd, ds[..n]);
      assert ds[n] in ds;
    } else {
      assert Encoded(s, ds) == [];
    }
  }

  lemma IssueParses(s: Suite, jws: string, ds: seq<Disclosure>, kb: string)
    requires DisclosuresDecode(s) && '~' !in jws && '~' !in kb
    ensures Parse(PresentationHead(jws, Encoded(s, ds)) + kb) ==
            Compact(jws, Encoded(s, ds), if kb == "" then None else Some(kb))
  {
    var c := Compact(jws, Encoded(s, ds), if kb == "" then None else Some(kb));
    assert PresentationHead(jws, Encoded(s, ds)) + kb == Print(c);
    ParseOfPrint(c);
  }

  /** What the holder sends when `wanted` is revealed: the issued JWS, the kept disclosures, a fresh KB-JWT. */
  lemma PresentationOfIssued(s: Suite, key: PrivateKey, i: Issuance, holder: PrivateKey, wanted: seq<string>,
                             audience: string, nonce: string, t1: int)
    requires DisclosuresDecode(s) && SignaturesOpen(s) && ValidIssuance(i)
    ensures var jws := s.sign(key, SD_JWT_VC_TYP, CredentialPayload(s, i));
            var kept := Encoded(s, KeepEntries(Entries(i.cred.claims, i.salts), wanted));
            var head := PresentationHead(jws, kept);
            var kb := s.sign(holder, KB_JWT_TYP, KbPayload(s, head, audience, nonce, t1));
            && CreatePresentation(s, Issue(s, key, i), holder, wanted, audience, nonce, t1) == Some(head + kb)
            && Parse(head + kb) == Compact(jws, kept, Some(kb)) && HeadOf(head + kb) == head
  {
    var jws := s.sign(key, SD_JWT_VC_TYP, CredentialPayload(s, i));
    var entries := Entries(i.cred.claims, i.salts);
    assert Issue(s, key, i) == PresentationHead(jws, Encoded(s, entries)) + "";
    IssueParses(s, jws, entries, "");
    KeepOfEncoded(s, entries, wanted);
    var kept := KeepEntries(entries, wanted);
    var head := PresentationHead(jws, Encoded(s, kept));
    var kb := s.sign(holder, KB_JWT_TYP, KbPayload(s, head, audience, nonce, t1));
    IssueParses(s, jws, kept, kb);
    assert '~' in head + kb by { assert (head + kb)[|head| - 1] == '~'; }
    HeadIsPresentationHead(head + kb);
  }

  /** The two unforgeability premises hold of honest parties whose signatures do open: of every credential this
      issuer's key signed for these calls, and of every KB-JWT this holder's key signed for these heads. */
  lemma HonestSignersMeetThePremises(
    s: Suite, key: PrivateKey, issued: set<Issuance>, credentials: set<string>,
    holder: PrivateKey, signed: set<(string, string, string)>, bindings: set<string>)
    requires SignaturesOpen(s) && PayloadIsInTheText(s)
    requires forall jws :: jws in credentials ==>
      exists i :: i in issued && ValidIssuance(i) && "_sd" !in i.cred.alwaysDisclosed && jws == s.sign(key, SD_JWT_VC_TYP, CredentialPayload(s, i))
    requires forall kb :: kb in bindings ==> exists h, a, n, t :: (h, a, n) in signed && kb == s.sign(holder, KB_JWT_TYP, KbPayload(s, h, a, n, t))
    ensures SignedOnly(s, s.publicJwk(key), credentials, issued) && BoundOnly(s, s.publicJwk(holder), bindings, signed)
  {
    hide CredentialPayload, KbPayload;
  }

  /** In particular of a credential just issued and a presentation just made of it. */
  lemma HonestPresentationMeetsThePremises(s: Suite, key: PrivateKey, i: Issuance, holder: PrivateKey, wanted: seq<string>,
                                           audience: string, nonce: string, t1: int)
    requires DisclosuresDecode(s) && SignaturesOpen(s) && PayloadIsInTheText(s) && ValidIssuance(i) && "_sd" !in i.cred.alwaysDisclosed
    ensures var p := CreatePresentation(s, Issue(s, key, i), holder, wanted, audience, nonce, t1);
            && p.Some? && Parse(p.value).kbJwt.Some?
            && SignedOnly(s, s.publicJwk(key), {Parse(p.value).jws}, {i})
            && BoundOnly(s, s.publicJwk(holder), {Parse(p.value).kbJwt.value}, {(HeadOf(p.value), audience, nonce)})
  {
    PresentationOfIssued(s, key, i, holder, wanted, audience, nonce, t1);
    var p := CreatePresentation(s, Issue(s, key, i), holder, wanted, audience, nonce, t1).value;
    var signed := {(HeadOf(p), audience, nonce)};
    assert (HeadOf(p), audience, nonce) in signed;
    assert Parse(p).kbJwt.value == s.sign(holder, KB_JWT_TYP, KbPayload(s, HeadOf(p), audience, nonce, t1));
    hide CreatePresentation, Issue, Parse, HeadOf, CredentialPayload, KbPayload, SignedOnly, BoundOnly, PresentationHead, DisclosuresDecode;
    HonestSignersMeetThePremises(s, key, {i}, {Parse(p).jws}, holder, signed, {Parse(p).kbJwt.value});
  }

  /** What everyone sees of a credential: its type, issuer and time of issue, over which the always-disclosed claims are
      spread, and its expiry; the three reserved keys stay hidden. */
  function VisibleOf(i: Issuance): Payload {
    var always := map k | k in i.cred.alwaysDisclosed && k !in {"_sd", "_sd_alg", "cnf"} :: i.cred.alwaysDisclosed[k];
    var base := map["vct" := Str(i.cred.vct), "iss" := Str(i.issuer), "iat" := Num(i.now)] + always;
    if i.cred.expiresInSeconds == 0 then base else base["exp" := Num(i.now + i.cred.expiresInSeconds)]
  }

  lemma VisibleIsOf(s: Suite, i: Issuance)
    requires |i.salts| == |i.cred.claims|
    ensures VisibleClaims(CredentialPayload(s, i)) == VisibleOf(i)
    ensures Get(CredentialPayload(s, i), "iss") == Get(VisibleOf(i), "iss") && Get(CredentialPayload(s, i), "vct") == Get(VisibleOf(i), "vct")
  {
    hide Sorted, Digests, Entries, Strings;
  }

  /** The holder's key as the credential binds it: the spread may replace it. */
  function BoundJwk(i: Issuance): Option<Json> {
    if "cnf" in i.cred.alwaysDisclosed then HolderJwk(i.cred.alwaysDisclosed) else Some(i.holderJwk)
  }

  /** The always-disclosed claims are spread over the payload last. What they put under `_sd_alg`, `_sd` and `cnf`, if
      anything, still serves: `_sd_alg` is falsy or SHA-256, the digest of every revealed entry is listed, and
      the bound JWK imports to the holder's public key. */
  ghost predicate SpreadKeepsBinding(s: Suite, i: Issuance, holder: PrivateKey, wanted: seq<string>)
    requires |i.salts| == |i.cred.claims|
  {
    var always := i.cred.alwaysDisclosed;
    && (Truthy(Get(always, "_sd_alg")) ==> always["_sd_alg"] == Str("sha-256"))
    && ("_sd" in always ==>
          && SdSet(always).Some?
          && forall d :: d in Entries(i.cred.claims, i.salts) && d.name in wanted ==> s.hash(s.encode(d)) in SdSet(always).value)
    && Truthy(BoundJwk(i)) && s.keyOf(BoundJwk(i).value) == s.keyOf(s.publicJwk(holder))
  }

  /** The same, read off the payload and the KB-JWT. */
  ghost predicate PayloadKeepsBinding(s: Suite, payload: Payload, kept: seq<Disclosure>, kbJwt: string, t2: int) {
    && (Truthy(Get(payload, "_sd_alg")) ==> payload["_sd_alg"] == Str(SD_ALG))
    && SdSet(payload).Some? && (forall d :: d in kept ==> s.hash(s.encode(d)) in SdSet(payload).value)
    && Truthy(HolderJwk(payload)) && s.open(kbJwt, HolderJwk(payload).value, KB_JWT_TYP, t2).Some?
  }

  lemma {:induction false} KeptAreWanted(ds: seq<Disclosure>, wanted: seq<string>, d: Disclosure)
    ensures d in KeepEntries(ds, wanted) <==> d in ds && d.name in wanted
  {
    if ds != [] {
      KeptAreWanted(ds[..|ds| - 1], wanted, d);
      assert ds == ds[..|ds| - 1] + [ds[|ds| - 1]];
    }
  }

  /** What the payload lists is what the spread lists, or else every digest. */
  lemma DigestsListed(s: Suite, i: Issuance, wanted: seq<string>)
    requires ValidIssuance(i)
    ensures var payload, always := CredentialPayload(s, i), i.cred.alwaysDisclosed;
            var kept := KeepEntries(Entries(i.cred.claims, i.salts), wanted);
            (SdSet(payload).Some? && forall d :: d in kept ==> s.hash(s.encode(d)) in SdSet(payload).value) <==>
            ("_sd" in always ==>
               && SdSet(always).Some?
               && forall d :: d in Entries(i.cred.claims, i.salts) && d.name in wanted ==> s.hash(s.encode(d)) in SdSet(always).value)
  {
    PayloadFields(s, i);
    var entries := Entries(i.cred.claims, i.salts);
    forall d
      ensures d in KeepEntries(entries, wanted) <==> d in entries && d.name in wanted
    {
      KeptAreWanted(entries, wanted, d);
    }
    if "_sd" !in i.cred.alwaysDisclosed {
      CommittedMembers(s, i);
      forall d | d in entries
        ensures s.hash(s.encode(d)) in Digests(s, entries)
      {
        var k :| 0 <= k < |entries| && entries[k] == d;
        assert Digests(s, entries)[k] == s.hash(s.encode(d));
      }
    }
    hide CredentialPayload, SdSet, Entries, KeepEntries, Digests;
  }

  lemma BindingIsPayloadBinding(s: Suite, i: Issuance, holder: PrivateKey, wanted: seq<string>,
                                head: string, audience: string, nonce: string, t1: int, t2: int)
    requires KeysDecide(s) && ValidIssuance(i)
    ensures var kept := KeepEntries(Entries(i.cred.claims, i.salts), wanted);
            PayloadKeepsBinding(s, CredentialPayload(s, i), kept, s.sign(holder, KB_JWT_TYP, KbPayload(s, head, audience, nonce, t1)), t2) <==>
            SpreadKeepsBinding(s, i, holder, wanted)
  {
    PayloadFields(s, i);
    DigestsListed(s, i, wanted);
    assert TimeClaimsHold(KbPayload(s, head, audience, nonce, t1), t2);
    hide CredentialPayload, SdSet, Entries, KeepEntries, KbPayload, TimeClaimsHold;
  }

  /** Issue, then present, then verify, for every claim list, every always-disclosed map and every reveal
      list: valid exactly when the spread keeps the binding, and then disclosing exactly the revealed claims. */
  lemma IssuePresentVerify(s: Suite, key: PrivateKey, i: Issuance, holder: PrivateKey, wanted: seq<string>,
                           audience: string, nonce: string, t1: int, t2: int)
    requires DisclosuresDecode(s) && SignaturesOpen(s) && PayloadIsInTheText(s) && KeysDecide(s) && ValidIssuance(i)
    requires TimeClaimsHold(CredentialPayload(s, i), t2) && t2 - t1 <= 300 && t1 <= t2 + 60
    ensures var presentation := CreatePresentation(s, Issue(s, key, i), holder, wanted, audience, nonce, t1);
            && presentation.Some?
            && var r := Verify(s, presentation.value, s.publicJwk(key), audience, nonce, t2);
               && (r.valid <==> SpreadKeepsBinding(s, i, holder, wanted))
               && (r.valid ==>
                     && r.disclosedClaims == Restrict(ClaimsMap(i.cred.claims), wanted) && r.errors == []
                     && r.issuerClaims == VisibleOf(i) && r.issuer == Get(VisibleOf(i), "iss") && r.vct == Get(VisibleOf(i), "vct"))
  {
    PresentationOfIssued(s, key, i, holder, wanted, audience, nonce, t1);
    var payload := CredentialPayload(s, i);
    var entries := Entries(i.cred.claims, i.salts);
    var kept := KeepEntries(entries, wanted);
    var presentation := CreatePresentation(s, Issue(s, key, i), holder, wanted, audience, nonce, t1).value;
    var head, kb := HeadOf(presentation), LastPart(Parse(presentation));
    ValidExactlyWhenAcceptable(s, presentation, s.publicJwk(key), audience, nonce, t2);
    HolderAccepts(s, payload, kept, holder, Parse(presentation).jws, kb, head, audience, nonce, t1, t2);
    BindingIsPayloadBinding(s, i, holder, wanted, head, audience, nonce, t1, t2);
    if PayloadKeepsBinding(s, payload, kept, kb, t2) {
      ScanOfEncoded(s, SdSet(payload).value, kept);
      KeepIsRestrict(entries, wanted);
      EntriesAreClaims(i.cred.claims, i.salts);
      JudgeDiscloses(s, payload, Parse(presentation), head, audience, nonce, t2);
      VisibleIsOf(s, i);
    }
    hide VisibleOf, VisibleClaims, SpreadKeepsBinding, PayloadKeepsBinding, Acceptable, Judge;
  }

  lemma JudgeDiscloses(s: Suite, payload: Payload, c: Compact, head: string, audience: string, nonce: string, now: int)
    requires SdSet(payload).Some?
    ensures var r := Judge(s, payload, c, head, audience, nonce, now);
            && r.disclosedClaims == Scan(s, SdSet(payload).value, c.disclosures).claims
            && r.issuerClaims == VisibleClaims(payload) && r.issuer == Get(payload, "iss") && r.vct == Get(payload, "vct")
            && (r.valid <==> r.errors == [])
  {
  }

  lemma HolderAccepts(s: Suite, payload: Payload, kept: seq<Disclosure>, holder: PrivateKey, jws: string, kb: string,
                      head: string, audience: string, nonce: string, t1: int, t2: int)
    requires DisclosuresDecode(s) && SignaturesOpen(s) && PayloadIsInTheText(s)
    requires TimeClaimsHold(payload, t2) && t2 - t1 <= 300 && t1 <= t2 + 60
    requires kb == s.sign(holder, KB_JWT_TYP, KbPayload(s, head, audience, nonce, t1))
    ensures Acceptable(s, payload, Compact(jws, Encoded(s, kept), Some(kb)), head, audience, nonce, t2) <==>
            PayloadKeepsBinding(s, payload, kept, kb, t2)
  {
    var claims := KbPayload(s, head, audience, nonce, t1);
    assert TimeClaimsHold(claims, t2);
    assert s.open(kb, s.publicJwk(holder), KB_JWT_TYP, t2) == Some(claims) == s.peek(kb);
    forall d | d in kept ensures s.encode(d) in Encoded(s, kept) {
      var k :| 0 <= k < |kept| && kept[k] == d;
      assert Encoded(s, kept)[k] == s.encode(d);
    }
  }

  lemma PayloadFields(s: Suite, i: Issuance)
    requires |i.salts| == |i.cred.claims|
    ensures var p, always := CredentialPayload(s, i), i.cred.alwaysDisclosed;
            && Get(p, "_sd_alg") == (if "_sd_alg" in always then Some(always["_sd_alg"]) else Some(Str(SD_ALG)))
            && HolderJwk(p) == (if "cnf" in always then HolderJwk(always) else Some(i.holderJwk))
            && ("_sd" in always ==> SdSet(p) == SdSet(always))
  {
  }

  /** Always-disclosed claims that stay clear of the three reserved keys never break a presentation. */
  lemma RevealedClaimsArriveIntact(s: Suite, key: PrivateKey, i: Issuance, holder: PrivateKey, wanted: seq<string>,
                                   audience: string, nonce: string, t1: int, t2: int)
    requires DisclosuresDecode(s) && SignaturesOpen(s) && PayloadIsInTheText(s) && KeysDecide(s) && ValidIssuance(i)
    requires i.holderJwk == s.publicJwk(holder) && i.cred.alwaysDisclosed.Keys !! {"_sd", "_sd_alg", "cnf"}
    requires TimeClaimsHold(CredentialPayload(s, i), t2) && t2 - t1 <= 300 && t1 <= t2 + 60
    ensures var presentation := CreatePresentation(s, Issue(s, key, i), holder, wanted, audience, nonce, t1);
            && presentation.Some?
            && var r := Verify(s, presentation.value, s.publicJwk(key), audience, nonce, t2);
               && r.valid && r.errors == [] && r.disclosedClaims == Restrict(ClaimsMap(i.cred.claims), wanted)
               && r.issuerClaims == VisibleOf(i)
               && ("iss" !in i.cred.alwaysDisclosed ==> r.issuer == Some(Str(i.issuer)) && Get(r.issuerClaims, "iss") == r.issuer)
               && ("vct" !in i.cred.alwaysDisclosed ==> r.vct == Some(Str(i.cred.vct)) && Get(r.issuerClaims, "vct") == r.vct)
               && ("iat" !in i.cred.alwaysDisclosed ==> Get(r.issuerClaims, "iat") == Some(Num(i.now)))
  {
    IssuePresentVerify(s, key, i, holder, wanted, audience, nonce, t1, t2);
    VisibleNames(i);
    assert i.holderJwk.Obj?;
    hide CreatePresentation, Issue, Verify, CredentialPayload, VisibleOf, Restrict, ClaimsMap;
  }

  lemma VisibleNames(i: Issuance)
    ensures "iss" !in i.cred.alwaysDisclosed ==> Get(VisibleOf(i), "iss") == Some(Str(i.issuer))
    ensures "vct" !in i.cred.alwaysDisclosed ==> Get(VisibleOf(i), "vct") == Some(Str(i.cred.vct))
    ensures "iat" !in i.cred.alwaysDisclosed ==> Get(VisibleOf(i), "iat") == Some(Num(i.now))
  {
  }

  /** An always-disclosed `_sd` replaces the commitments: with a null one, no revealed claim survives. */
  lemma SpreadCanEraseTheCommitments(s: Suite, key: PrivateKey, i: Issuance, holder: PrivateKey, wanted: seq<string>,
                                     audience: string, nonce: string, t1: int, t2: int)
    requires DisclosuresDecode(s) && SignaturesOpen(s) && PayloadIsInTheText(s) && KeysDecide(s) && ValidIssuance(i)
    requires i.cred.alwaysDisclosed == map["_sd" := Null] && Restrict(ClaimsMap(i.cred.claims), wanted) != map[]
    requires TimeClaimsHold(CredentialPayload(s, i), t2) && t2 - t1 <= 300 && t1 <= t2 + 60
    ensures var presentation := CreatePresentation(s, Issue(s, key, i), holder, wanted, audience, nonce, t1);
            presentation.Some? && !Verify(s, presentation.value, s.publicJwk(key), audience, nonce, t2).valid
  {
    IssuePresentVerify(s, key, i, holder, wanted, audience, nonce, t1, t2);
    hide CreatePresentation, Issue, Verify, CredentialPayload;
    var entries := Entries(i.cred.claims, i.salts);
    KeepIsRestrict(entries, wanted);
    EntriesAreClaims(i.cred.claims, i.salts);
    var d := KeepEntries(entries, wanted)[0];
    KeptAreWanted(entries, wanted, d);
    assert Get(i.cred.alwaysDisclosed, "_sd") == Some(Null);
    assert SdSet(i.cred.alwaysDisclosed) == Some({});
  }
}
