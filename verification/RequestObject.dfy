/** The wallet's check of a signed presentation request (JAR, RFC 9101). */
module RequestObject {
  import opened Basics
  import opened Crypto

  const REQUEST_OBJECT_TYP := "oauth-authz-req+jwt"

  datatype Refusal = InvalidRequest | AccessDenied
  datatype Result = Verified(claims: Payload) | Refused(reason: Refusal)

  /** The audience option of JWS verification: the claim is the string, or an array that contains it. */
  predicate AudienceIs(p: Payload, expected: string) {
    "aud" in p && (p["aud"] == Str(expected) || (p["aud"].Arr? && Str(expected) in p["aud"].a))
  }

  /** `verifyPresentationRequest`: the key comes from `trustedRps`, looked up by the claimed client. */
  function VerifyPresentationRequest(s: Suite, jwt: string, trustedRps: map<string, Json>, expectedAudience: string, now: int): Result {
    match s.peek(jwt)
    case None => Refused(InvalidRequest)
    case Some(peeked) =>
      if "client_id" !in peeked || !peeked["client_id"].Str? then Refused(InvalidRequest)
      else if !Truthy(Get(trustedRps, peeked["client_id"].s)) then Refused(AccessDenied)
      else match s.open(jwt, trustedRps[peeked["client_id"].s], REQUEST_OBJECT_TYP, now)
        case None => Refused(InvalidRequest)
        case Some(payload) => if AudienceIs(payload, expectedAudience) then Verified(payload) else Refused(InvalidRequest)
  }

  /** `signRequestObject`. */
  function SignRequestObject(s: Suite, key: PrivateKey, claims: Payload, now: int): string {
    s.sign(key, REQUEST_OBJECT_TYP, claims["iat" := Num(now)]["exp" := Num(now + 120)])
  }

  /** What is returned was signed by the key registered for the very client it names, for this wallet; for any
      input string and any table of clients. */
  lemma VerifiedRequestsAreBound(s: Suite, jwt: string, trustedRps: map<string, Json>, expectedAudience: string, now: int)
    requires PayloadIsInTheText(s)
    ensures var r := VerifyPresentationRequest(s, jwt, trustedRps, expectedAudience, now);
            r.Verified? <==>
              exists clientId :: clientId in trustedRps && Truthy(Some(trustedRps[clientId])) &&
                var payload := s.open(jwt, trustedRps[clientId], REQUEST_OBJECT_TYP, now);
                payload.Some? && Get(payload.value, "client_id") == Some(Str(clientId)) && AudienceIs(payload.value, expectedAudience)
    ensures var r := VerifyPresentationRequest(s, jwt, trustedRps, expectedAudience, now);
            r.Verified? ==> Some(r.claims) == s.peek(jwt)
  {
    var r := VerifyPresentationRequest(s, jwt, trustedRps, expectedAudience, now);
    if r.Verified? {
      var clientId := s.peek(jwt).value["client_id"].s;
      assert s.open(jwt, trustedRps[clientId], REQUEST_OBJECT_TYP, now) == Some(r.claims);
      assert Get(r.claims, "client_id") == Some(Str(clientId));
    }
    if clientId :| clientId in trustedRps && Truthy(Some(trustedRps[clientId])) &&
                   s.open(jwt, trustedRps[clientId], REQUEST_OBJECT_TYP, now).Some? &&
                   Get(s.open(jwt, trustedRps[clientId], REQUEST_OBJECT_TYP, now).value, "client_id") == Some(Str(clientId)) &&
                   AudienceIs(s.open(jwt, trustedRps[clientId], REQUEST_OBJECT_TYP, now).value, expectedAudience)
    {
      assert s.open(jwt, trustedRps[clientId], REQUEST_OBJECT_TYP, now) == s.peek(jwt);
    }
  }

  /** And what is refused is refused as access denied exactly when it names a client that the table has no key for, and as
      invalid when it names none, does not open under the client's key for this purpose, or is for another wallet. */
  lemma RefusedExactly(s: Suite, jwt: string, trustedRps: map<string, Json>, expectedAudience: string, now: int)
    ensures var r, peeked := VerifyPresentationRequest(s, jwt, trustedRps, expectedAudience, now), s.peek(jwt);
            if peeked.None? || Get(peeked.value, "client_id").None? || !Get(peeked.value, "client_id").value.Str? then r == Refused(InvalidRequest)
            else
              var jwk := Get(trustedRps, Get(peeked.value, "client_id").value.s);
              if !Truthy(jwk) then r == Refused(AccessDenied)
              else
                var payload := s.open(jwt, jwk.value, "oauth-authz-req+jwt", now);
                r == if payload.Some? && (Get(payload.value, "aud") == Some(Str(expectedAudience)) ||
                                          exists a :: Get(payload.value, "aud") == Some(Arr(a)) && Str(expectedAudience) in a)
                     then Verified(payload.value) else Refused(InvalidRequest)
  {
  }

  /** The table registers this key for the client that the claims name. */
  ghost predicate Registered(s: Suite, key: PrivateKey, claims: Payload, trustedRps: map<string, Json>) {
    exists clientId :: Get(claims, "client_id") == Some(Str(clientId)) && Get(trustedRps, clientId) == Some(s.publicJwk(key))
  }

  /** Any claims at all, signed by the registered key for this wallet: accepted exactly while those time claims hold
      that they do carry. */
  lemma AcceptedWhileTimeClaimsHold(s: Suite, key: PrivateKey, claims: Payload, trustedRps: map<string, Json>, audience: string, now: int)
    requires SignaturesOpen(s) && PayloadIsInTheText(s) && OpenChecksTime(s)
    requires Registered(s, key, claims, trustedRps) && AudienceIs(claims, audience)
    ensures var r := VerifyPresentationRequest(s, s.sign(key, REQUEST_OBJECT_TYP, claims), trustedRps, audience, now);
            && (r.Verified? <==> TimeClaimsHold(claims, now))
            && (r.Verified? ==> r.claims == claims)
  {
    var jwt := s.sign(key, REQUEST_OBJECT_TYP, claims);
    var result := s.open(jwt, s.publicJwk(key), REQUEST_OBJECT_TYP, now);
    assert s.peek(jwt) == Some(claims);
    assert result.Some? ==> result == s.peek(jwt);
    assert s.publicJwk(key).Obj?;
    hide TimeClaimsHold;
  }

  /** At this time or later, the signed claims are accepted. */
  ghost predicate AcceptedAfter(s: Suite, key: PrivateKey, claims: Payload, trustedRps: map<string, Json>, audience: string, t: int) {
    exists now :: t <= now && VerifyPresentationRequest(s, s.sign(key, REQUEST_OBJECT_TYP, claims), trustedRps, audience, now).Verified?
  }

  /** An expiry is not demanded. A request goes on being accepted at arbitrarily late times if and only if it carries
      no `exp`, and its `iat` and `nbf`, if any, are numbers. */
  lemma RequestsLapseExactlyWithExpiry(s: Suite, key: PrivateKey, claims: Payload, trustedRps: map<string, Json>, audience: string)
    requires SignaturesOpen(s) && PayloadIsInTheText(s) && OpenChecksTime(s)
    requires Registered(s, key, claims, trustedRps) && AudienceIs(claims, audience)
    ensures (forall t :: AcceptedAfter(s, key, claims, trustedRps, audience, t)) <==>
            "exp" !in claims && ("iat" in claims ==> claims["iat"].Num?) && ("nbf" in claims ==> claims["nbf"].Num?)
  {
    var jwt := s.sign(key, REQUEST_OBJECT_TYP, claims);
    forall now
      ensures VerifyPresentationRequest(s, jwt, trustedRps, audience, now).Verified? == TimeClaimsHold(claims, now)
    {
      AcceptedWhileTimeClaimsHold(s, key, claims, trustedRps, audience, now);
    }
    hide VerifyPresentationRequest, Registered, AudienceIs;
    if "exp" !in claims && ("iat" in claims ==> claims["iat"].Num?) && ("nbf" in claims ==> claims["nbf"].Num?) {
      forall t
        ensures AcceptedAfter(s, key, claims, trustedRps, audience, t)
      {
        var now := if "nbf" in claims && claims["nbf"].n > t then claims["nbf"].n else t;
        assert VerifyPresentationRequest(s, jwt, trustedRps, audience, now).Verified?;
      }
    } else {
      var last := if "exp" in claims && claims["exp"].Num? then claims["exp"].n else 0;
      assert forall now :: last <= now ==> !TimeClaimsHold(claims, now);
      assert !AcceptedAfter(s, key, claims, trustedRps, audience, last);
    }
  }

  /** A request signed by `signRequestObject` is accepted for 120 s, and no longer. */
  lemma SignedRequestsExpire(s: Suite, key: PrivateKey, claims: Payload, trustedRps: map<string, Json>, audience: string, signed: int, now: int)
    requires SignaturesOpen(s) && PayloadIsInTheText(s) && OpenChecksTime(s)
    requires Registered(s, key, claims, trustedRps) && AudienceIs(claims, audience) && "nbf" !in claims
    ensures VerifyPresentationRequest(s, SignRequestObject(s, key, claims, signed), trustedRps, audience, now).Verified? <==> now < signed + 120
  {
    var payload := claims["iat" := Num(signed)]["exp" := Num(signed + 120)];
    assert Get(payload, "client_id") == Get(claims, "client_id") && Get(payload, "aud") == Get(claims, "aud");
    assert Registered(s, key, payload, trustedRps);
    AcceptedWhileTimeClaimsHold(s, key, payload, trustedRps, audience, now);
    hide VerifyPresentationRequest, Registered;
  }
}
