/** The signature, hash and JSON-codec libraries as uninterpreted functions, and the laws a theorem may ask of them. */
module Crypto {
  import opened Basics

  type Payload = map<string, Json>

  /** The name of a key pair whose private half stays with its holder. */
  type PrivateKey = nat

  /** The JSON array `[salt, name, value]` inside a disclosure. */
  datatype Disclosure = Disclosure(salt: string, name: string, value: Json)

  datatype Suite = Suite(
    /** base64url(SHA-256(text)). */
    hash: string -> string,
    /** base64url(JSON(disclosure)); decoding fails on anything else. */
    encode: Disclosure -> string,
    decode: string -> Option<Disclosure>,
    publicJwk: PrivateKey -> Json,
    /** The public key that importing a JWK gives; `None` when the import throws. */
    keyOf: Json -> Option<int>,
    /** A compact ES256 JWS with this `typ` header. */
    sign: (PrivateKey, string, Payload) -> string,
    /** Import the JWK and verify the JWS for this `typ` at this second; `None` when either step throws. */
    open: (string, Json, string, int) -> Option<Payload>,
    /** Decode the payload of a compact JWS without verifying it; `None` when it does not decode. */
    peek: string -> Option<Payload>
  )

  /** `jwks?.keys?.[0]` */
  function FirstKey(jwks: Option<Json>): Option<Json> {
    var keys := Field(jwks, "keys");
    match keys
    case Some(Arr(a)) => if a == [] then None else Some(a[0])
    case _ => None
  }

  ghost predicate CollisionFree(hash: string -> string) {
    forall x, y :: hash(x) == hash(y) ==> x == y
  }

  ghost predicate DisclosuresDecode(s: Suite) {
    && (forall d :: s.decode(s.encode(d)) == Some(d))
    && (forall d :: '~' !in s.encode(d))
  }

  /** The payload is part of the text: signing puts it there, and every key that opens the JWS sees it. */
  ghost predicate PayloadIsInTheText(s: Suite) {
    && (forall jws, jwk, typ, now :: s.open(jws, jwk, typ, now).Some? ==> s.open(jws, jwk, typ, now) == s.peek(jws))
    && (forall k, typ, p :: s.peek(s.sign(k, typ, p)) == Some(p))
  }

  /** The registered time claims that JWS verification itself checks. */
  predicate TimeClaimsHold(p: Payload, now: int) {
    && ("nbf" in p ==> p["nbf"].Num? && p["nbf"].n <= now)
    && ("exp" in p ==> p["exp"].Num? && now < p["exp"].n)
    && ("iat" in p ==> p["iat"].Num?)
  }

  /** Opening a JWS checks its time claims. */
  ghost predicate OpenChecksTime(s: Suite) {
    forall jws, jwk, typ, now :: s.open(jws, jwk, typ, now).Some? ==> TimeClaimsHold(s.open(jws, jwk, typ, now).value, now)
  }

  /** A signature opens under its own key; compact JWS text is not empty and has no tilde. */
  ghost predicate SignaturesOpen(s: Suite) {
    && (forall k, typ, p, now :: TimeClaimsHold(p, now) ==> s.open(s.sign(k, typ, p), s.publicJwk(k), typ, now) == Some(p))
    && (forall k, typ, p :: '~' !in s.sign(k, typ, p) && s.sign(k, typ, p) != "")
    && (forall k :: s.publicJwk(k).Obj?)
  }

  /** A signature opens under every JWK that imports to its own public key, and under no other. */
  ghost predicate KeysDecide(s: Suite) {
    && (forall k :: s.keyOf(s.publicJwk(k)).Some?)
    && (forall k, typ, p, jwk, now :: TimeClaimsHold(p, now) ==>
          (s.open(s.sign(k, typ, p), jwk, typ, now).Some? <==> s.keyOf(jwk) == s.keyOf(s.publicJwk(k))))
  }
}
