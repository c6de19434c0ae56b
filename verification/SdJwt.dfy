/** SD-JWT VC: issue, present a chosen subset of the claims with holder binding, verify. */
module SdJwt {
  import opened Basics
  import opened CompactForm
  import opened Crypto

  const SD_JWT_VC_TYP := "dc+sd-jwt"
  const KB_JWT_TYP := "kb+jwt"
  const SD_ALG := "sha-256"
  const KB_JWT_MAX_AGE_S := 300
  const CLOCK_SKEW_S := 60

  // ------------------------------------------------------------------ issuing

  /** A credential before encoding. `claims` lists the entries of a JavaScript object, so names do not repeat. */
  datatype CredentialClaims = CredentialClaims(
    vct: string, claims: seq<(string, Json)>, alwaysDisclosed: Payload, expiresInSeconds: int)

  /** One call of the issuer: what it was given, when, and the salts it drew. */
  datatype Issuance = Issuance(
    issuer: string, holderJwk: Json, cred: CredentialClaims, now: int, salts: seq<string>)

  ghost predicate UniqueNames(claims: seq<(string, Json)>) {
    forall i, j :: 0 <= i < j < |claims| ==> claims[i].0 != claims[j].0
  }

  ghost predicate ValidIssuance(i: Issuance) {
    UniqueNames(i.cred.claims) && |i.salts| == |i.cred.claims|
  }

  function Entries(claims: seq<(string, Json)>, salts: seq<string>): (ds: seq<Disclosure>)
    requires |salts| == |claims|
  {
    seq(|claims|, i requires 0 <= i < |claims| => Disclosure(salts[i], claims[i].0, claims[i].1))
  }

  function Encoded(s: Suite, ds: seq<Disclosure>): seq<string> {
    seq(|ds|, i requires 0 <= i < |ds| => s.encode(ds[i]))
  }

  function Digests(s: Suite, ds: seq<Disclosure>): seq<string> {
    seq(|ds|, i requires 0 <= i < |ds| => s.hash(s.encode(ds[i])))
  }

  /** JavaScript string order, by UTF-16 code unit. */
  predicate Before(a: string, b: string) {
    a == "" || (b != "" && (a[0] < b[0] || (a[0] == b[0] && Before(a[1..], b[1..]))))
  }

  function Insert(x: string, sorted: seq<string>): seq<string> {
    if sorted == [] || Before(x, sorted[0]) then [x] + sorted else [sorted[0]] + Insert(x, sorted[1..])
  }

  function Sorted(xs: seq<string>): seq<string> {
    if xs == [] then [] else Insert(xs[0], Sorted(xs[1..]))
  }

  lemma {:induction false} InsertMembers(x: string, sorted: seq<string>, y: string)
    ensures y in Insert(x, sorted) <==> y == x || y in sorted
  {
    if sorted != [] && !Before(x, sorted[0]) {
      InsertMembers(x, sorted[1..], y);
      assert sorted == [sorted[0]] + sorted[1..];
    }
  }

  lemma {:induction false} SortedMembers(xs: seq<string>, y: string)
    ensures y in Sorted(xs) <==> y in xs
  {
    if xs != [] {
      SortedMembers(xs[1..], y);
      InsertMembers(xs[0], Sorted(xs[1..]), y);
      assert xs == [xs[0]] + xs[1..];
    }
  }

  function Strings(xs: seq<string>): seq<Json> {
    seq(|xs|, i requires 0 <= i < |xs| => Str(xs[i]))
  }

  /** The signed payload. The always-disclosed claims are spread last and may replace an earlier key. */
  function CredentialPayload(s: Suite, i: Issuance): Payload
    requires |i.salts| == |i.cred.claims|
  {
    var base := map[
      "vct" := Str(i.cred.vct),
      "iss" := Str(i.issuer),
      "iat" := Num(i.now),
      "_sd_alg" := Str(SD_ALG),
      "_sd" := Arr(Strings(Sorted(Digests(s, Entries(i.cred.claims, i.salts))))),
      "cnf" := Obj(map["jwk" := i.holderJwk])] + i.cred.alwaysDisclosed;
    if i.cred.expiresInSeconds != 0 then base["exp" := Num(i.now + i.cred.expiresInSeconds)] else base
  }

  function Issue(s: Suite, key: PrivateKey, i: Issuance): string
    requires |i.salts| == |i.cred.claims|
  {
    PresentationHead(s.sign(key, SD_JWT_VC_TYP, CredentialPayload(s, i)), Encoded(s, Entries(i.cred.claims, i.salts)))
  }

  // --------------------------------------------------------------- presenting

  /** The disclosures whose claim name is wanted; `None` when one of them does not decode. */
  function Keep(s: Suite, ds: seq<string>, wanted: seq<string>): Option<seq<string>> {
    if ds == [] then Some([])
    else
      var d := ds[|ds| - 1];
      match (Keep(s, ds[..|ds| - 1], wanted), s.decode(d))
      case (Some(kept), Some(entry)) => Some(if entry.name in wanted then kept + [d] else kept)
      case _ => None
  }

  function KbPayload(s: Suite, head: string, audience: string, nonce: string, now: int): Payload {
    map["iat" := Num(now), "nonce" := Str(nonce), "aud" := Str(audience), "sd_hash" := Str(s.hash(head))]
  }

  function CreatePresentation(s: Suite, issued: string, holder: PrivateKey, wanted: seq<string>,
                              audience: string, nonce: string, now: int): Option<string>
  {
    var c := Parse(issued);
    match Keep(s, c.disclosures, wanted)
    case None => None
    case Some(kept) =>
      var head := PresentationHead(c.jws, kept);
      Some(head + s.sign(holder, KB_JWT_TYP, KbPayload(s, head, audience, nonce, now)))
  }

  // ---------------------------------------------------------------- verifying

  datatype Error =
    | NotYetValid | UnsupportedSdAlg | NotCommitted(name: string)
    | MissingKbJwt | NoHolderKey | StaleKbJwt | AudienceMismatch | NonceMismatch | SdHashMismatch
    | Expired | VerificationFailed

  datatype Result = Result(
    valid: bool, disclosedClaims: Payload, issuerClaims: Payload, errors: seq<Error>,
    issuer: Option<Json>, vct: Option<Json>)

  /** What a stage of the verifier collected, and whether it ended in an exception. */
  datatype Stage = Stage(claims: Payload, errors: seq<Error>, threw: bool)

  /** `new Set(payload._sd ?? [])`; `None` when the value is not iterable. */
  function SdSet(payload: Payload): Option<set<string>> {
    var sd: Option<Json> := Get(payload, "_sd");
    match sd
    case None => Some({})
    case Some(Null) => Some({})
    case Some(Arr(a)) => Some(set v | v in a && v.Str? :: v.s)
    case Some(Str(t)) => Some(set ch | ch in t :: [ch])
    case Some(_) => None
  }

  function HeaderErrors(payload: Payload, now: int): seq<Error> {
    (if "nbf" in payload && payload["nbf"].Num? && payload["nbf"].n > now then [NotYetValid] else []) +
    (if Truthy(Get(payload, "_sd_alg")) && payload["_sd_alg"] != Str(SD_ALG) then [UnsupportedSdAlg] else [])
  }

  function VisibleClaims(payload: Payload): Payload {
    map k | k in payload && k !in {"_sd", "_sd_alg", "cnf"} :: payload[k]
  }

  function ScanOne(s: Suite, sd: set<string>, acc: Stage, d: string): Stage {
    match s.decode(d)
    case None => acc.(threw := true)
    case Some(entry) =>
      if s.hash(d) in sd then acc.(claims := acc.claims[entry.name := entry.value])
      else acc.(errors := acc.errors + [NotCommitted(entry.name)])
  }

  /** The disclosure loop: stops at the first disclosure that does not decode. */
  function Scan(s: Suite, sd: set<string>, ds: seq<string>): Stage {
    if ds == [] then Stage(map[], [], false)
    else
      var acc := Scan(s, sd, ds[..|ds| - 1]);
      if acc.threw then acc else ScanOne(s, sd, acc, ds[|ds| - 1])
  }

  function HolderJwk(payload: Payload): Option<Json> {
    var cnf: Option<Json> := Get(payload, "cnf");
    match cnf
    case Some(Obj(o)) => Get(o, "jwk")
    case _ => None
  }

  predicate FreshKb(kb: Payload, now: int) {
    "iat" in kb && kb["iat"].Num? && now - kb["iat"].n <= KB_JWT_MAX_AGE_S && kb["iat"].n <= now + CLOCK_SKEW_S
  }

  function KbErrors(s: Suite, kb: Payload, head: string, audience: string, nonce: string, now: int): seq<Error> {
    (if FreshKb(kb, now) then [] else [StaleKbJwt]) +
    (if Get(kb, "aud") == Some(Str(audience)) then [] else [AudienceMismatch]) +
    (if Get(kb, "nonce") == Some(Str(nonce)) then [] else [NonceMismatch]) +
    (if Get(kb, "sd_hash") == Some(Str(s.hash(head))) then [] else [SdHashMismatch])
  }

  function HolderStage(s: Suite, payload: Payload, kbJwt: Option<string>, head: string, audience: string, nonce: string, now: int): Stage {
    var jwk := HolderJwk(payload);
    if kbJwt.None? then Stage(map[], [MissingKbJwt], false)
    else if !Truthy(jwk) then Stage(map[], [NoHolderKey], false)
    else match s.open(kbJwt.value, jwk.value, KB_JWT_TYP, now)
      case None => Stage(map[], [], true)
      case Some(kb) => Stage(map[], KbErrors(s, kb, head, audience, nonce, now), false)
  }

  function ExpiryErrors(payload: Payload, now: int): seq<Error> {
    if "exp" in payload && payload["exp"].Num? && payload["exp"].n != 0 && payload["exp"].n < now then [Expired] else []
  }

  function Conclude(claims: Payload, visible: Payload, errors: seq<Error>, issuer: Option<Json>, vct: Option<Json>): Result {
    Result(errors == [], claims, visible, errors, issuer, vct)
  }

  /** Everything after the issuer's signature has opened the JWS. */
  function Judge(s: Suite, payload: Payload, c: Compact, head: string, audience: string, nonce: string, now: int): Result {
    var issuer, vct, visible := Get(payload, "iss"), Get(payload, "vct"), VisibleClaims(payload);
    var header := HeaderErrors(payload, now);
    match SdSet(payload)
    case None => Conclude(map[], visible, header + [VerificationFailed], issuer, vct)
    case Some(sd) =>
      var scan := Scan(s, sd, c.disclosures);
      if scan.threw then Conclude(scan.claims, visible, header + scan.errors + [VerificationFailed], issuer, vct)
      else
        var holder := HolderStage(s, payload, c.kbJwt, head, audience, nonce, now);
        var rest := if holder.threw then [VerificationFailed] else holder.errors + ExpiryErrors(payload, now);
        Conclude(scan.claims, visible, header + scan.errors + rest, issuer, vct)
  }

  /** What `verifyPresentation` returns for any input string, at clock reading `now`. */
  function Verify(s: Suite, presentation: string, issuerJwk: Json, audience: string, nonce: string, now: int): Result {
    match s.open(Parse(presentation).jws, issuerJwk, SD_JWT_VC_TYP, now)
    case None => Conclude(map[], map[], [VerificationFailed], None, None)
    case Some(payload) => Judge(s, payload, Parse(presentation), HeadOf(presentation), audience, nonce, now)
  }

  method CopyVisible(payload: Payload) returns (issuerClaims: Payload)
    ensures issuerClaims == VisibleClaims(payload)
  {
    issuerClaims := map[];
    var keys := payload.Keys;
    while keys != {}
      invariant keys <= payload.Keys
      invariant forall k :: k in issuerClaims <==> k in payload && k !in keys && k !in {"_sd", "_sd_alg", "cnf"}
      invariant forall k :: k in issuerClaims ==> issuerClaims[k] == payload[k]
      decreases |keys|
    {
      var k :| k in keys;
      keys := keys - {k};
      if k != "_sd" && k != "_sd_alg" && k != "cnf" {
        issuerClaims := issuerClaims[k := payload[k]];
      }
    }
  }

  method ScanDisclosures(s: Suite, sd: set<string>, disclosures: seq<string>) returns (r: Stage)
    ensures r == Scan(s, sd, disclosures)
  {
    var disclosedClaims: Payload := map[];
    var errors: seq<Error> := [];
    var i := 0;
    while i < |disclosures|
      invariant 0 <= i <= |disclosures|
      invariant Scan(s, sd, disclosures[..i]) == Stage(disclosedClaims, errors, false)
    {
      var d := disclosures[i];
      assert disclosures[..i + 1][..i] == disclosures[..i];
      var decoded := s.decode(d);
      if decoded.None? {
        ScanStopsAt(s, sd, disclosures, i + 1);
        return Stage(disclosedClaims, errors, true);
      }
      if s.hash(d) !in sd {
        errors := errors + [NotCommitted(decoded.value.name)];
      } else {
        disclosedClaims := disclosedClaims[decoded.value.name := decoded.value.value];
      }
      i := i + 1;
    }
    assert disclosures[..i] == disclosures;
    r := Stage(disclosedClaims, errors, false);
  }

  method CheckKb(s: Suite, kb: Payload, head: string, audience: string, nonce: string, now: int) returns (errors: seq<Error>)
    ensures errors == KbErrors(s, kb, head, audience, nonce, now)
  {
    errors := [];
    if !FreshKb(kb, now) { errors := errors + [StaleKbJwt]; }
    if Get(kb, "aud") != Some(Str(audience)) { errors := errors + [AudienceMismatch]; }
    if Get(kb, "nonce") != Some(Str(nonce)) { errors := errors + [NonceMismatch]; }
    if Get(kb, "sd_hash") != Some(Str(s.hash(head))) { errors := errors + [SdHashMismatch]; }
  }

  method CheckHolder(s: Suite, payload: Payload, kbJwt: Option<string>, head: string, audience: string, nonce: string, now: int)
    returns (r: Stage)
    ensures r == HolderStage(s, payload, kbJwt, head, audience, nonce, now)
  {
    var jwk := HolderJwk(payload);
    if kbJwt.None? {
      return Stage(map[], [MissingKbJwt], false);
    }
    if !Truthy(jwk) {
      return Stage(map[], [NoHolderKey], false);
    }
    var kb := s.open(kbJwt.value, jwk.value, KB_JWT_TYP, now);
    if kb.None? {
      return Stage(map[], [], true);
    }
    var errors := CheckKb(s, kb.value, head, audience, nonce, now);
    r := Stage(map[], errors, false);
  }

  /** `verifyPresentation`: fills the error list and the two claim objects stage by stage. */
  method VerifyPresentation(s: Suite, presentation: string, issuerJwk: Json, audience: string, nonce: string, now: int)
    returns (r: Result)
    ensures r == Verify(s, presentation, issuerJwk, audience, nonce, now)
  {
    var c := ParseCompact(presentation);
    var jwt := s.open(c.jws, issuerJwk, SD_JWT_VC_TYP, now);
    if jwt.None? {
      return Result(false, map[], map[], [VerificationFailed], None, None);
    }
    var payload := jwt.value;
    var errors: seq<Error> := HeaderErrors(payload, now);
    var issuerClaims := CopyVisible(payload);
    var issuer, vct := Get(payload, "iss"), Get(payload, "vct");
    var sdSet := SdSet(payload);
    if sdSet.None? {
      return Result(false, map[], issuerClaims, errors + [VerificationFailed], issuer, vct);
    }
    var scan := ScanDisclosures(s, sdSet.value, c.disclosures);
    errors := errors + scan.errors;
    if scan.threw {
      return Result(false, scan.claims, issuerClaims, errors + [VerificationFailed], issuer, vct);
    }
    var holder := CheckHolder(s, payload, c.kbJwt, HeadOf(presentation), audience, nonce, now);
    if holder.threw {
      return Result(false, scan.claims, issuerClaims, errors + [VerificationFailed], issuer, vct);
    }
    var rest := holder.errors;
    if "exp" in payload && payload["exp"].Num? && payload["exp"].n != 0 && payload["exp"].n < now {
      rest := rest + [Expired];
    }
    errors := errors + rest;
    r := Result(errors == [], scan.claims, issuerClaims, errors, issuer, vct);
  }

  lemma {:induction false} ScanStopsAt(s: Suite, sd: set<string>, ds: seq<string>, i: nat)
    requires i <= |ds| && Scan(s, sd, ds[..i]).threw
    ensures Scan(s, sd, ds) == Scan(s, sd, ds[..i])
  {
    if i == |ds| {
      assert ds[..i] == ds;
    } else {
      assert ds[..|ds| - 1][..i] == ds[..i];
      ScanStopsAt(s, sd, ds[..|ds| - 1], i);
    }
  }
}
