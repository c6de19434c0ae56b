/** ISO/IEC 18013-5 mdoc: issue signed digests of every item, present some of the items, verify. CBOR, COSE keys
    and ECDSA are functions of a codec record; a decoder returns `None` where the decoded shape makes the program throw. */
module Mdoc {
  import opened Basics
  import opened Crypto

  type Bytes = seq<bv8>

  const MAX_CBOR_BYTES := 1_048_576
  const COSE_ES256 := -7

  // ---------------------------------------------------------------- documents

  /** An EC2 / P-256 COSE_Key. */
  datatype CoseKey = CoseKey(x: Bytes, y: Bytes)

  /** `element` is the property name that JavaScript makes of the element identifier. */
  datatype Item = Item(digestId: Option<int>, random: Bytes, element: string, value: Json)

  datatype StatusRef = StatusRef(idx: Option<int>, uri: Option<string>)
  datatype Validity = Validity(validFrom: Option<int>, validUntil: Option<int>)

  type DigestMap = map<int, Bytes>

  datatype Mso = Mso(
    valueDigests: Option<map<string, DigestMap>>, deviceKey: Option<CoseKey>, docType: Option<string>,
    validity: Option<Validity>, status: Option<StatusRef>)

  datatype Sign1 = Sign1(protectedHdr: Bytes, payload: Bytes, signature: Bytes)

  /** The items of a namespace, each as the content bytes of its tag. */
  datatype NameSpace = NameSpace(name: string, items: seq<Bytes>)
  datatype IssuerSigned = IssuerSigned(nameSpaces: Option<seq<NameSpace>>, issuerAuth: Option<Sign1>)
  datatype DeviceAuth = DeviceAuth(aud: Option<string>, nonce: Option<string>, docType: string)
  datatype Document = Document(docType: Option<string>, issuerSigned: Option<IssuerSigned>, deviceSignature: Option<Sign1>)

  datatype Codecs = Codecs(
    encItem: Item -> Bytes, decItem: Bytes -> Option<Item>,
    encMso: Mso -> Bytes, decMso: Bytes -> Option<Mso>,
    tag24: Bytes -> Bytes, untag: Bytes -> Option<Bytes>,
    encAuth: DeviceAuth -> Bytes, decAuth: Bytes -> Option<DeviceAuth>,
    encSigned: IssuerSigned -> Bytes, decSigned: Bytes -> Option<IssuerSigned>,
    /** A DeviceResponse and its first document. */
    encResponse: Document -> Bytes, decResponse: Bytes -> Option<Document>,
    es256Header: Bytes, headerAlg: Bytes -> Option<int>,
    /** The Sig_structure of a protected header and a payload. */
    toBeSigned: (Bytes, Bytes) -> Bytes,
    toText: Bytes -> string, fromText: string -> Bytes,
    sha256: Bytes -> Bytes,
    publicJwk: PrivateKey -> Json, sign: (PrivateKey, Bytes) -> Bytes,
    /** Import the JWK and check the signature; false when either step fails. */
    verify: (Json, Bytes, Bytes) -> bool)

  ghost predicate CodecsDecode(c: Codecs) {
    && (forall x :: c.decItem(c.encItem(x)) == Some(x)) && (forall x :: c.decMso(c.encMso(x)) == Some(x))
    && (forall x :: c.untag(c.tag24(x)) == Some(x)) && (forall x :: c.decAuth(c.encAuth(x)) == Some(x))
    && (forall x :: c.decSigned(c.encSigned(x)) == Some(x)) && (forall x :: c.decResponse(c.encResponse(x)) == Some(x))
    && (forall x :: c.fromText(c.toText(x)) == x) && c.headerAlg(c.es256Header) == Some(-7)
  }

  /** An encoding is at least as long as what it contains. */
  ghost predicate ContainersAreLonger(c: Codecs) {
    && (forall b :: |b| <= |c.tag24(b)|)
    && (forall d: Document :: d.issuerSigned.Some? && d.issuerSigned.value.issuerAuth.Some? ==>
          |d.issuerSigned.value.issuerAuth.value.payload| <= |c.encResponse(d)|)
  }

  ghost predicate DigestsCollisionFree(c: Codecs) {
    forall x, y :: c.sha256(x) == c.sha256(y) ==> x == y
  }

  /** A signature verifies under every JWK with the coordinates of its key. */
  ghost predicate SignaturesVerify(c: Codecs) {
    forall key, bytes, jwk :: CoseOfJwk(c, jwk).Some? && CoseOfJwk(c, jwk) == CoseOfJwk(c, c.publicJwk(key)) ==>
      c.verify(jwk, bytes, c.sign(key, bytes))
  }

  // ---------------------------------------------------------------- COSE keys

  /** `jwkToCoseKey`: `None` when a coordinate is missing. */
  function CoseOfJwk(c: Codecs, jwk: Json): Option<CoseKey> {
    if jwk.Obj? && "x" in jwk.o && "y" in jwk.o && jwk.o["x"].Str? && jwk.o["y"].Str?
    then Some(CoseKey(c.fromText(jwk.o["x"].s), c.fromText(jwk.o["y"].s))) else None
  }

  function JwkOfCose(c: Codecs, k: CoseKey): Json {
    Obj(map["kty" := Str("EC"), "crv" := Str("P-256"), "x" := Str(c.toText(k.x)), "y" := Str(c.toText(k.y))])
  }

  /** `coseSign1`. */
  function CoseSign(c: Codecs, key: PrivateKey, payload: Bytes): Sign1 {
    Sign1(c.es256Header, payload, c.sign(key, c.toBeSigned(c.es256Header, payload)))
  }

  /** `coseSign1Verify`: the payload, or `None` when it throws. */
  function CoseOpen(c: Codecs, jwk: Json, sign1: Option<Sign1>): Option<Bytes> {
    if sign1.Some? && c.headerAlg(sign1.value.protectedHdr) == Some(COSE_ES256)
       && c.verify(jwk, c.toBeSigned(sign1.value.protectedHdr, sign1.value.payload), sign1.value.signature)
    then Some(sign1.value.payload) else None
  }

  // ------------------------------------------------------------------ issuing

  /** The entries of JavaScript objects, in order. */
  datatype Elements = Elements(ns: string, entries: seq<(string, Json)>)

  datatype MdocClaims = MdocClaims(
    docType: string, namespaces: seq<Elements>, validityDays: int, status: Option<StatusRef>, validFrom: Option<int>)

  /** One call of the issuer: what it was given, when, and the salts it drew, one per item. */
  datatype Issuance = Issuance(holder: CoseKey, cred: MdocClaims, now: int, salts: nat -> Bytes)

  datatype IssuedMdoc = IssuedMdoc(docType: string, issuerSigned: string)

  /** Property names of one object do not repeat. */
  ghost predicate ValidClaims(cred: MdocClaims) {
    && (forall i, j :: 0 <= i < j < |cred.namespaces| ==> cred.namespaces[i].ns != cred.namespaces[j].ns)
    && (forall n, i, j :: 0 <= n < |cred.namespaces| && 0 <= i < j < |cred.namespaces[n].entries| ==>
          cred.namespaces[n].entries[i].0 != cred.namespaces[n].entries[j].0)
  }

  /** How many items the first `n` namespaces hold: the digest id at which the next one starts. */
  function FirstId(nss: seq<Elements>, n: nat): nat
    requires n <= |nss|
  {
    if n == 0 then 0 else FirstId(nss, n - 1) + |nss[n - 1].entries|
  }

  function ItemAt(i: Issuance, n: nat, k: nat): Item
    requires n < |i.cred.namespaces| && k < |i.cred.namespaces[n].entries|
  {
    var id := FirstId(i.cred.namespaces, n) + k;
    var (name, value) := i.cred.namespaces[n].entries[k];
    Item(Some(id), i.salts(id), name, value)
  }

  function ItemBytes(c: Codecs, i: Issuance, n: nat): seq<Bytes>
    requires n < |i.cred.namespaces|
  {
    seq(|i.cred.namespaces[n].entries|, k requires 0 <= k < |i.cred.namespaces[n].entries| => c.encItem(ItemAt(i, n, k)))
  }

  /** The digests of the first `k` items of a namespace. */
  function DigestsUpTo(c: Codecs, i: Issuance, n: nat, k: nat): DigestMap
    requires n < |i.cred.namespaces| && k <= |i.cred.namespaces[n].entries|
  {
    if k == 0 then map[]
    else DigestsUpTo(c, i, n, k - 1)[FirstId(i.cred.namespaces, n) + k - 1 := c.sha256(c.encItem(ItemAt(i, n, k - 1)))]
  }

  function NsDigests(c: Codecs, i: Issuance, n: nat): DigestMap
    requires n < |i.cred.namespaces|
  {
    DigestsUpTo(c, i, n, |i.cred.namespaces[n].entries|)
  }

  function NameSpaces(c: Codecs, i: Issuance): seq<NameSpace> {
    seq(|i.cred.namespaces|, n requires 0 <= n < |i.cred.namespaces| => NameSpace(i.cred.namespaces[n].ns, ItemBytes(c, i, n)))
  }

  /** The digests of the first `n` namespaces. */
  function ValueDigests(c: Codecs, i: Issuance, n: nat): map<string, DigestMap>
    requires n <= |i.cred.namespaces|
  {
    if n == 0 then map[] else ValueDigests(c, i, n - 1)[i.cred.namespaces[n - 1].ns := NsDigests(c, i, n - 1)]
  }

  function MsoOf(c: Codecs, i: Issuance): Mso {
    Mso(Some(ValueDigests(c, i, |i.cred.namespaces|)), Some(i.holder), Some(i.cred.docType),
        Some(Validity(Some(match i.cred.validFrom case Some(t) => t case None => i.now), Some(i.now + i.cred.validityDays * 86400))),
        i.cred.status)
  }

  function IssuerSignedOf(c: Codecs, key: PrivateKey, i: Issuance): IssuerSigned {
    IssuerSigned(Some(NameSpaces(c, i)), Some(CoseSign(c, key, c.tag24(c.encMso(MsoOf(c, i))))))
  }

  function Issue(c: Codecs, key: PrivateKey, i: Issuance): IssuedMdoc {
    IssuedMdoc(i.cred.docType, c.toText(c.encSigned(IssuerSignedOf(c, key, i))))
  }

  /** One namespace of `issueMdoc`: `digestId` goes on counting from the namespace before. */
  method IssueNamespace(c: Codecs, i: Issuance, n: nat, firstId: nat) returns (items: seq<Bytes>, nsDigests: DigestMap, digestId: nat)
    requires n < |i.cred.namespaces| && firstId == FirstId(i.cred.namespaces, n)
    ensures items == ItemBytes(c, i, n) && nsDigests == NsDigests(c, i, n) && digestId == FirstId(i.cred.namespaces, n + 1)
  {
    items, nsDigests, digestId := [], map[], firstId;
    var entries := i.cred.namespaces[n].entries;
    for k := 0 to |entries|
      invariant digestId == firstId + k && items == ItemBytes(c, i, n)[..k] && nsDigests == DigestsUpTo(c, i, n, k)
    {
      var id := digestId;
      digestId := digestId + 1;
      var item := Item(Some(id), i.salts(id), entries[k].0, entries[k].1);
      var itemBytes := c.encItem(item);
      assert item == ItemAt(i, n, k);
      items := items + [itemBytes];
      nsDigests := nsDigests[id := c.sha256(itemBytes)];
    }
  }

  /** The loop over the namespaces. */
  method IssueNameSpaces(c: Codecs, i: Issuance) returns (nameSpaces: seq<NameSpace>, valueDigests: map<string, DigestMap>)
    ensures nameSpaces == NameSpaces(c, i) && valueDigests == ValueDigests(c, i, |i.cred.namespaces|)
  {
    hide ItemBytes, NsDigests;
    nameSpaces, valueDigests := [], map[];
    var digestId := 0;
    for n := 0 to |i.cred.namespaces|
      invariant digestId == FirstId(i.cred.namespaces, n)
      invariant nameSpaces == NameSpaces(c, i)[..n] && valueDigests == ValueDigests(c, i, n)
    {
      var ns := i.cred.namespaces[n].ns;
      var items, nsDigests, next := IssueNamespace(c, i, n, digestId);
      digestId := next;
      nameSpaces := nameSpaces + [NameSpace(ns, items)];
      valueDigests := valueDigests[ns := nsDigests];
    }
  }

  method IssueMdoc(c: Codecs, key: PrivateKey, i: Issuance) returns (issued: IssuedMdoc)
    ensures issued == Issue(c, key, i)
  {
    hide NameSpaces, ValueDigests, CoseSign;
    var nameSpaces, valueDigests := IssueNameSpaces(c, i);
    var validFrom := match i.cred.validFrom case Some(t) => t case None => i.now;
    var mso := Mso(Some(valueDigests), Some(i.holder), Some(i.cred.docType),
                   Some(Validity(Some(validFrom), Some(i.now + i.cred.validityDays * 86400))), i.cred.status);
    assert mso == MsoOf(c, i);
    var issuerAuth := CoseSign(c, key, c.tag24(c.encMso(mso)));
    issued := IssuedMdoc(i.cred.docType, c.toText(c.encSigned(IssuerSigned(Some(nameSpaces), Some(issuerAuth)))));
  }

  // --------------------------------------------------------------- presenting

  /** The element names to reveal, by namespace. */
  type Reveal = map<string, seq<string>>

  function Wanted(shown: Reveal, ns: string): seq<string> {
    match Get(shown, ns) case Some(names) => names case None => []
  }

  /** `items.filter`; `None` when an item does not decode. */
  function KeepItems(c: Codecs, items: seq<Bytes>, wanted: seq<string>): Option<seq<Bytes>> {
    if items == [] then Some([])
    else
      var b := items[|items| - 1];
      match (KeepItems(c, items[..|items| - 1], wanted), c.decItem(b))
      case (Some(kept), Some(item)) => Some(if item.element in wanted then kept + [b] else kept)
      case _ => None
  }

  function KeepNameSpaces(c: Codecs, nss: seq<NameSpace>, shown: Reveal): Option<seq<NameSpace>> {
    if nss == [] then Some([])
    else
      var ns := nss[|nss| - 1];
      match (KeepNameSpaces(c, nss[..|nss| - 1], shown), KeepItems(c, ns.items, Wanted(shown, ns.name)))
      case (Some(filtered), Some(kept)) => Some(if kept != [] then filtered + [NameSpace(ns.name, kept)] else filtered)
      case _ => None
  }

  function DocumentOf(c: Codecs, docType: string, filtered: seq<NameSpace>, issuerAuth: Option<Sign1>, holder: PrivateKey,
                      audience: string, nonce: string): Document
  {
    Document(Some(docType), Some(IssuerSigned(Some(filtered), issuerAuth)),
             Some(CoseSign(c, holder, c.encAuth(DeviceAuth(Some(audience), Some(nonce), docType)))))
  }

  function CreatePresentation(c: Codecs, issued: IssuedMdoc, holder: PrivateKey, shown: Reveal, audience: string, nonce: string): Option<string> {
    match c.decSigned(c.fromText(issued.issuerSigned))
    case Some(IssuerSigned(Some(nss), issuerAuth)) =>
      (match KeepNameSpaces(c, nss, shown)
       case Some(filtered) => Some(c.toText(c.encResponse(DocumentOf(c, issued.docType, filtered, issuerAuth, holder, audience, nonce))))
       case None => None)
    case _ => None
  }

  method FilterNameSpaces(c: Codecs, nss: seq<NameSpace>, shown: Reveal) returns (filtered: Option<seq<NameSpace>>)
    ensures filtered == KeepNameSpaces(c, nss, shown)
  {
    var done: seq<NameSpace> := [];
    var n := 0;
    while n < |nss|
      invariant 0 <= n <= |nss| && KeepNameSpaces(c, nss[..n], shown) == Some(done)
    {
      var kept := KeepItems(c, nss[n].items, Wanted(shown, nss[n].name));
      assert nss[..n + 1][..n] == nss[..n];
      if kept.None? {
        KeepStopsAt(c, nss, shown, n + 1);
        return None;
      }
      if kept.value != [] {
        done := done + [NameSpace(nss[n].name, kept.value)];
      }
      n := n + 1;
    }
    assert nss[..n] == nss;
    filtered := Some(done);
  }

  lemma {:induction false} KeepStopsAt(c: Codecs, nss: seq<NameSpace>, shown: Reveal, n: nat)
    requires n <= |nss| && KeepNameSpaces(c, nss[..n], shown) == None
    ensures KeepNameSpaces(c, nss, shown) == None
  {
    if n == |nss| {
      assert nss[..n] == nss;
    } else {
      assert nss[..|nss| - 1][..n] == nss[..n];
      KeepStopsAt(c, nss[..|nss| - 1], shown, n);
    }
  }

  // ---------------------------------------------------------------- verifying

  datatype Error =
    | DocTypeMismatch | DigestMismatch(ns: string, element: string)
    | AudienceMismatch | NonceMismatch | Expired | NotYetValid | VerificationFailed

  type Disclosed = map<string, map<string, Json>>

  datatype Verdict = Verdict(
    valid: bool, docType: Option<string>, disclosedClaims: Disclosed, status: Option<StatusRef>, errors: seq<Error>)

  /** `None`: the input is refused before it is decoded. */
  type Outcome = Option<Verdict>

  datatype ItemStage = ItemStage(claims: map<string, Json>, errors: seq<Error>, threw: bool)
  datatype Stage = Stage(claims: Disclosed, errors: seq<Error>, threw: bool)

  predicate Matches(c: Codecs, digests: Option<DigestMap>, b: Bytes, item: Item) {
    digests.Some? && item.digestId.Some? && item.digestId.value in digests.value && c.sha256(b) == digests.value[item.digestId.value]
  }

  /** The loop over the items of one namespace; it stops at an item that does not decode. */
  function ScanItems(c: Codecs, ns: string, digests: Option<DigestMap>, items: seq<Bytes>): ItemStage {
    if items == [] then ItemStage(map[], [], false)
    else
      var acc, b := ScanItems(c, ns, digests, items[..|items| - 1]), items[|items| - 1];
      if acc.threw then acc
      else match c.decItem(b)
        case None => acc.(threw := true)
        case Some(item) =>
          if Matches(c, digests, b, item) then acc.(claims := acc.claims[item.element := item.value])
          else acc.(errors := acc.errors + [DigestMismatch(ns, item.element)])
  }

  /** The loop over the namespaces. */
  function Scan(c: Codecs, digests: Option<map<string, DigestMap>>, nss: seq<NameSpace>): Stage {
    if nss == [] then Stage(map[], [], false)
    else
      var acc, ns := Scan(c, digests, nss[..|nss| - 1]), nss[|nss| - 1];
      if acc.threw then acc
      else if digests.None? then acc.(threw := true)
      else
        var r := ScanItems(c, ns.name, Get(digests.value, ns.name), ns.items);
        Stage(acc.claims[ns.name := r.claims], acc.errors + r.errors, r.threw)
  }

  /** Open the issuer's signature and decode the MSO; `None` when any step throws. */
  function OpenMso(c: Codecs, issuerJwk: Json, issuerAuth: Option<Sign1>): Option<Mso> {
    match CoseOpen(c, issuerJwk, issuerAuth)
    case None => None
    case Some(payload) =>
      if |payload| > MAX_CBOR_BYTES then None
      else match c.untag(payload)
        case None => None
        case Some(inner) => if |inner| > MAX_CBOR_BYTES then None else c.decMso(inner)
  }

  /** Open the device signature under the key in the MSO; `None` when any step throws. */
  function OpenDeviceAuth(c: Codecs, mso: Mso, deviceSignature: Option<Sign1>): Option<DeviceAuth> {
    match mso.deviceKey
    case None => None
    case Some(key) =>
      match CoseOpen(c, JwkOfCose(c, key), deviceSignature)
      case None => None
      case Some(bytes) => c.decAuth(bytes)
  }

  function DeviceErrors(da: DeviceAuth, audience: string, nonce: string): seq<Error> {
    (if da.aud != Some(audience) then [AudienceMismatch] else []) + (if da.nonce != Some(nonce) then [NonceMismatch] else [])
  }

  function ValidityErrors(v: Validity, now: int): seq<Error> {
    (if v.validUntil.Some? && v.validUntil.value < now then [Expired] else []) +
    (if v.validFrom.Some? && v.validFrom.value > now then [NotYetValid] else [])
  }

  function Fail(docType: Option<string>, claims: Disclosed, errors: seq<Error>): Verdict {
    Verdict(false, docType, claims, None, errors + [VerificationFailed])
  }

  /** Everything after the issuer's signature has opened the MSO. */
  function Judge(c: Codecs, doc: Document, signed: IssuerSigned, mso: Mso, audience: string, nonce: string, now: int): Verdict {
    var mismatch := if mso.docType != doc.docType then [DocTypeMismatch] else [];
    if signed.nameSpaces.None? then Fail(doc.docType, map[], mismatch)
    else
      var scan := Scan(c, mso.valueDigests, signed.nameSpaces.value);
      var errors := mismatch + scan.errors;
      if scan.threw then Fail(doc.docType, scan.claims, errors)
      else match OpenDeviceAuth(c, mso, doc.deviceSignature)
        case None => Fail(doc.docType, scan.claims, errors)
        case Some(da) =>
          var errors' := errors + DeviceErrors(da, audience, nonce);
          match mso.validity
          case None => Fail(doc.docType, scan.claims, errors')
          case Some(v) =>
            var all := errors' + ValidityErrors(v, now);
            Verdict(all == [], doc.docType, scan.claims, mso.status, all)
  }

  function VerifyDocument(c: Codecs, doc: Document, issuerJwk: Json, audience: string, nonce: string, now: int): Verdict {
    match doc.issuerSigned
    case None => Fail(doc.docType, map[], [])
    case Some(signed) =>
      match OpenMso(c, issuerJwk, signed.issuerAuth)
      case None => Fail(doc.docType, map[], [])
      case Some(mso) => Judge(c, doc, signed, mso, audience, nonce, now)
  }

  /** What `verifyMdocPresentation` returns for any input string, at clock reading `now`. */
  function Verify(c: Codecs, presentation: string, issuerJwk: Json, audience: string, nonce: string, now: int): Outcome {
    var raw := c.fromText(presentation);
    if |raw| > MAX_CBOR_BYTES then None
    else match c.decResponse(raw)
      case None => Some(Fail(None, map[], []))
      case Some(doc) => Some(VerifyDocument(c, doc, issuerJwk, audience, nonce, now))
  }

  method CheckItems(c: Codecs, ns: string, nsDigests: Option<DigestMap>, items: seq<Bytes>) returns (r: ItemStage)
    ensures r == ScanItems(c, ns, nsDigests, items)
  {
    var claims: map<string, Json> := map[];
    var errors: seq<Error> := [];
    var k := 0;
    while k < |items|
      invariant 0 <= k <= |items| && ScanItems(c, ns, nsDigests, items[..k]) == ItemStage(claims, errors, false)
    {
      var b := items[k];
      assert items[..k + 1][..k] == items[..k];
      var item := c.decItem(b);
      if item.None? {
        ItemsStopAt(c, ns, nsDigests, items, k + 1);
        return ItemStage(claims, errors, true);
      }
      if !Matches(c, nsDigests, b, item.value) {
        errors := errors + [DigestMismatch(ns, item.value.element)];
      } else {
        claims := claims[item.value.element := item.value.value];
      }
      k := k + 1;
    }
    assert items[..k] == items;
    r := ItemStage(claims, errors, false);
  }

  method CheckNameSpaces(c: Codecs, digests: Option<map<string, DigestMap>>, nss: seq<NameSpace>) returns (r: Stage)
    ensures r == Scan(c, digests, nss)
  {
    var disclosedClaims: Disclosed := map[];
    var errors: seq<Error> := [];
    var n := 0;
    while n < |nss|
      invariant 0 <= n <= |nss| && Scan(c, digests, nss[..n]) == Stage(disclosedClaims, errors, false)
    {
      assert nss[..n + 1][..n] == nss[..n];
      if digests.None? {
        ScanStopsAt(c, digests, nss, n + 1);
        return Stage(disclosedClaims, errors, true);
      }
      var items := CheckItems(c, nss[n].name, Get(digests.value, nss[n].name), nss[n].items);
      disclosedClaims := disclosedClaims[nss[n].name := items.claims];
      errors := errors + items.errors;
      if items.threw {
        ScanStopsAt(c, digests, nss, n + 1);
        return Stage(disclosedClaims, errors, true);
      }
      n := n + 1;
    }
    assert nss[..n] == nss;
    r := Stage(disclosedClaims, errors, false);
  }

  /** `verifyMdocPresentation`: refuse oversized input, then check stage by stage. */
  method VerifyMdocPresentation(c: Codecs, presentation: string, issuerJwk: Json, audience: string, nonce: string, now: int)
    returns (r: Outcome)
    ensures r == Verify(c, presentation, issuerJwk, audience, nonce, now)
  {
    hide Judge, OpenMso;
    var rawBytes := c.fromText(presentation);
    if |rawBytes| > MAX_CBOR_BYTES {
      return None;
    }
    var resp := c.decResponse(rawBytes);
    if resp.None? {
      return Some(Fail(None, map[], []));
    }
    var doc := resp.value;
    if doc.issuerSigned.None? {
      return Some(Fail(doc.docType, map[], []));
    }
    var msoOpen := OpenMso(c, issuerJwk, doc.issuerSigned.value.issuerAuth);
    if msoOpen.None? {
      return Some(Fail(doc.docType, map[], []));
    }
    var verdict := VerifyContents(c, doc, doc.issuerSigned.value, msoOpen.value, audience, nonce, now);
    r := Some(verdict);
  }

  method VerifyContents(c: Codecs, doc: Document, signed: IssuerSigned, mso: Mso, audience: string, nonce: string, now: int) returns (r: Verdict)
    ensures r == Judge(c, doc, signed, mso, audience, nonce, now)
  {
    hide Scan, OpenDeviceAuth, DeviceErrors, ValidityErrors;
    var errors: seq<Error> := [];
    if mso.docType != doc.docType {
      errors := errors + [DocTypeMismatch];
    }
    if signed.nameSpaces.None? {
      return Fail(doc.docType, map[], errors);
    }
    var scan := CheckNameSpaces(c, mso.valueDigests, signed.nameSpaces.value);
    errors := errors + scan.errors;
    var auth := OpenDeviceAuth(c, mso, doc.deviceSignature);
    if scan.threw || auth.None? {
      return Fail(doc.docType, scan.claims, errors);
    }
    errors := errors + DeviceErrors(auth.value, audience, nonce);
    if mso.validity.None? {
      return Fail(doc.docType, scan.claims, errors);
    }
    errors := errors + ValidityErrors(mso.validity.value, now);
    r := Verdict(errors == [], doc.docType, scan.claims, mso.status, errors);
  }

  lemma {:induction false} ItemsStopAt(c: Codecs, ns: string, digests: Option<DigestMap>, items: seq<Bytes>, k: nat)
    requires k <= |items| && ScanItems(c, ns, digests, items[..k]).threw
    ensures ScanItems(c, ns, digests, items) == ScanItems(c, ns, digests, items[..k])
  {
    if k == |items| {
      assert items[..k] == items;
    } else {
      assert items[..|items| - 1][..k] == items[..k];
      ItemsStopAt(c, ns, digests, items[..|items| - 1], k);
    }
  }

  lemma {:induction false} ScanStopsAt(c: Codecs, digests: Option<map<string, DigestMap>>, nss: seq<NameSpace>, n: nat)
    requires n <= |nss| && Scan(c, digests, nss[..n]).threw
    ensures Scan(c, digests, nss) == Scan(c, digests, nss[..n])
  {
    if n == |nss| {
      assert nss[..n] == nss;
    } else {
      assert nss[..|nss| - 1][..n] == nss[..n];
      ScanStopsAt(c, digests, nss[..|nss| - 1], n);
    }
  }
}
