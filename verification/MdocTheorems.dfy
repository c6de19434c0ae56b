/** What a relying party may conclude from an mdoc verification, and what a holder may expect of one. */
module MdocTheorems {
  import opened Basics
  import opened Crypto
  import opened Mdoc

  // ------------------------------------------------------------- digest ids

  /** `(n, k)` names an item of the credential: entry `k` of namespace `n`. */
  predicate IsItem(i: Issuance, n: int, k: int) {
    0 <= n < |i.cred.namespaces| && 0 <= k < |i.cred.namespaces[n].entries|
  }

  function IdOf(i: Issuance, n: int, k: int): nat
    requires IsItem(i, n, k)
  {
    FirstId(i.cred.namespaces, n) + k
  }

  lemma {:induction false} FirstIdGrows(nss: seq<Elements>, m: nat, n: nat)
    requires m < n <= |nss|
    ensures FirstId(nss, m) + |nss[m].entries| <= FirstId(nss, n)
  {
    if m + 1 < n {
      FirstIdGrows(nss, m, n - 1);
    }
  }

  lemma {:induction false} DigestLookup(c: Codecs, i: Issuance, n: nat, k: nat, id: int)
    requires n < |i.cred.namespaces| && k <= |i.cred.namespaces[n].entries|
    ensures var first := FirstId(i.cred.namespaces, n);
            && (id in DigestsUpTo(c, i, n, k) <==> first <= id < first + k)
            && (first <= id < first + k ==> DigestsUpTo(c, i, n, k)[id] == c.sha256(c.encItem(ItemAt(i, n, id - first))))
  {
    if k > 0 {
      DigestLookup(c, i, n, k - 1, id);
    }
  }

  lemma {:induction false} NsLookup(c: Codecs, i: Issuance, m: nat, ns: string)
    requires m <= |i.cred.namespaces| && ValidClaims(i.cred)
    ensures ns in ValueDigests(c, i, m) ==> exists n :: 0 <= n < m && i.cred.namespaces[n].ns == ns
    ensures forall n :: 0 <= n < m && i.cred.namespaces[n].ns == ns ==>
              ns in ValueDigests(c, i, m) && ValueDigests(c, i, m)[ns] == NsDigests(c, i, n)
  {
    if m > 0 {
      NsLookup(c, i, m - 1, ns);
    }
  }

  /** Digest ids never repeat, not even across namespaces, and the MSO lists under them the digests of exactly
      the items issued in each namespace. */
  lemma DigestIdsIndexTheItems(c: Codecs, i: Issuance)
    requires ValidClaims(i.cred)
    ensures var digests := MsoOf(c, i).valueDigests.value;
            && (forall n, k :: IsItem(i, n, k) ==>
                  var ns := i.cred.namespaces[n].ns;
                  ns in digests && IdOf(i, n, k) in digests[ns] && digests[ns][IdOf(i, n, k)] == c.sha256(c.encItem(ItemAt(i, n, k))))
            && (forall ns, id :: ns in digests && id in digests[ns] ==>
                  exists n, k :: IsItem(i, n, k) && i.cred.namespaces[n].ns == ns && IdOf(i, n, k) == id)
            && (forall n, k, n', k' :: IsItem(i, n, k) && IsItem(i, n', k') && IdOf(i, n, k) == IdOf(i, n', k') ==> n == n' && k == k')
  {
    var nss := i.cred.namespaces;
    var digests := MsoOf(c, i).valueDigests.value;
    forall n, k | IsItem(i, n, k)
      ensures nss[n].ns in digests && IdOf(i, n, k) in digests[nss[n].ns]
              && digests[nss[n].ns][IdOf(i, n, k)] == c.sha256(c.encItem(ItemAt(i, n, k)))
    {
      NsLookup(c, i, |nss|, nss[n].ns);
      DigestLookup(c, i, n, |nss[n].entries|, IdOf(i, n, k));
    }
    forall ns, id | ns in digests && id in digests[ns]
      ensures exists n, k :: IsItem(i, n, k) && nss[n].ns == ns && IdOf(i, n, k) == id
    {
      NsLookup(c, i, |nss|, ns);
      var n :| 0 <= n < |nss| && nss[n].ns == ns;
      DigestLookup(c, i, n, |nss[n].entries|, id);
      assert IsItem(i, n, id - FirstId(nss, n)) && IdOf(i, n, id - FirstId(nss, n)) == id;
    }
    forall n, k, n', k' | IsItem(i, n, k) && IsItem(i, n', k') && IdOf(i, n, k) == IdOf(i, n', k')
      ensures n == n' && k == k'
    {
      if n < n' { FirstIdGrows(nss, n, n'); }
      if n' < n { FirstIdGrows(nss, n', n); }
    }
  }

  // --------------------------------------------------------------- soundness

  /** These bytes are an item that the issuer put in this namespace. */
  ghost predicate IssuedIn(c: Codecs, i: Issuance, ns: string, b: Bytes) {
    exists n, k :: IsItem(i, n, k) && i.cred.namespaces[n].ns == ns && b == c.encItem(ItemAt(i, n, k))
  }

  /** The verifier accepts an item in a namespace exactly when the issuer put those very bytes in that namespace. */
  lemma AcceptedExactlyWhenIssued(c: Codecs, i: Issuance, ns: string, b: Bytes)
    requires CodecsDecode(c) && DigestsCollisionFree(c) && ValidClaims(i.cred)
    ensures c.decItem(b).Some? && Matches(c, Get(MsoOf(c, i).valueDigests.value, ns), b, c.decItem(b).value) <==> IssuedIn(c, i, ns, b)
  {
    if IssuedIn(c, i, ns, b) {
      IssuedMatches(c, i, ns, b);
    } else if c.decItem(b).Some? && Matches(c, Get(MsoOf(c, i).valueDigests.value, ns), b, c.decItem(b).value) {
      MatchedIsIssued(c, i, ns, b);
    }
    hide *;
  }

  lemma IssuedMatches(c: Codecs, i: Issuance, ns: string, b: Bytes)
    requires CodecsDecode(c) && ValidClaims(i.cred) && IssuedIn(c, i, ns, b)
    ensures c.decItem(b).Some? && Matches(c, Get(MsoOf(c, i).valueDigests.value, ns), b, c.decItem(b).value)
  {
    var n, k :| IsItem(i, n, k) && i.cred.namespaces[n].ns == ns && b == c.encItem(ItemAt(i, n, k));
    assert c.decItem(b) == Some(ItemAt(i, n, k));
    assert ItemAt(i, n, k).digestId == Some(IdOf(i, n, k));
    DigestIdsIndexTheItems(c, i);
    hide MsoOf, ValidClaims, CodecsDecode, IdOf, ItemAt, IssuedIn;
  }

  lemma MatchedIsIssued(c: Codecs, i: Issuance, ns: string, b: Bytes)
    requires DigestsCollisionFree(c) && ValidClaims(i.cred)
    requires c.decItem(b).Some? && Matches(c, Get(MsoOf(c, i).valueDigests.value, ns), b, c.decItem(b).value)
    ensures IssuedIn(c, i, ns, b)
  {
    var digests := MsoOf(c, i).valueDigests.value;
    var id := c.decItem(b).value.digestId.value;
    assert ns in digests && id in digests[ns] && c.sha256(b) == digests[ns][id];
    DigestIdsIndexTheItems(c, i);
    hide MsoOf, ValidClaims, IdOf, ItemAt, Matches;
    var n, k :| IsItem(i, n, k) && i.cred.namespaces[n].ns == ns && IdOf(i, n, k) == id;
    assert c.sha256(b) == c.sha256(c.encItem(ItemAt(i, n, k)));
  }

  ghost predicate IssuedClaim(i: Issuance, ns: string, element: string, value: Json) {
    exists n, k :: IsItem(i, n, k) && i.cred.namespaces[n].ns == ns && i.cred.namespaces[n].entries[k] == (element, value)
  }

  lemma {:induction false} ItemsDiscloseIssued(c: Codecs, i: Issuance, ns: string, items: seq<Bytes>)
    requires CodecsDecode(c) && DigestsCollisionFree(c) && ValidClaims(i.cred)
    ensures var r := ScanItems(c, ns, Get(MsoOf(c, i).valueDigests.value, ns), items);
            && (forall el :: el in r.claims ==> IssuedClaim(i, ns, el, r.claims[el]))
            && (r.errors == [] && !r.threw <==> forall b :: b in items ==> IssuedIn(c, i, ns, b))
  {
    if items != [] {
      var b := items[|items| - 1];
      ItemsDiscloseIssued(c, i, ns, items[..|items| - 1]);
      AcceptedExactlyWhenIssued(c, i, ns, b);
      assert items == items[..|items| - 1] + [b];
      assert forall x :: x in items <==> x in items[..|items| - 1] || x == b;
      hide MsoOf;
      if IssuedIn(c, i, ns, b) {
        var n, k :| IsItem(i, n, k) && i.cred.namespaces[n].ns == ns && b == c.encItem(ItemAt(i, n, k));
        assert c.decItem(b) == Some(ItemAt(i, n, k));
        assert IssuedClaim(i, ns, ItemAt(i, n, k).element, ItemAt(i, n, k).value);
      }
      hide IssuedIn, IssuedClaim, Matches;
    }
  }

  /** Every item of every namespace was issued in that namespace. */
  ghost predicate AllIssued(c: Codecs, i: Issuance, nss: seq<NameSpace>) {
    forall n, b :: 0 <= n < |nss| && b in nss[n].items ==> IssuedIn(c, i, nss[n].name, b)
  }

  ghost predicate OnlyIssued(i: Issuance, claims: Disclosed) {
    forall ns, el :: ns in claims && el in claims[ns] ==> IssuedClaim(i, ns, el, claims[ns][el])
  }

  lemma {:induction false} ScanDisclosesIssued(c: Codecs, i: Issuance, nss: seq<NameSpace>)
    requires CodecsDecode(c) && DigestsCollisionFree(c) && ValidClaims(i.cred)
    ensures var r := Scan(c, MsoOf(c, i).valueDigests, nss);
            OnlyIssued(i, r.claims) && (r.errors == [] && !r.threw <==> AllIssued(c, i, nss))
  {
    if nss != [] {
      var before, last := nss[..|nss| - 1], nss[|nss| - 1];
      ScanDisclosesIssued(c, i, before);
      ItemsDiscloseIssued(c, i, last.name, last.items);
      hide IssuedIn, IssuedClaim, ScanItems;
      assert nss == before + [last];
      assert AllIssued(c, i, nss) <==> AllIssued(c, i, before) && forall b :: b in last.items ==> IssuedIn(c, i, last.name, b) by {
        assert forall n :: 0 <= n < |before| ==> nss[n] == before[n];
      }
    }
  }

  /** The window and the device signature: what validity asks for besides the items. */
  ghost predicate Bound(c: Codecs, i: Issuance, doc: Document, audience: string, nonce: string, now: int) {
    && doc.docType == Some(i.cred.docType)
    && (match i.cred.validFrom case Some(t) => t <= now case None => i.now <= now)
    && now <= i.now + i.cred.validityDays * 86400
    && match CoseOpen(c, JwkOfCose(c, i.holder), doc.deviceSignature)
       case None => false
       case Some(bytes) => c.decAuth(bytes).Some? && c.decAuth(bytes).value.aud == Some(audience) && c.decAuth(bytes).value.nonce == Some(nonce)
  }

  lemma JudgeExactly(c: Codecs, i: Issuance, doc: Document, signed: IssuerSigned, audience: string, nonce: string, now: int)
    requires CodecsDecode(c) && DigestsCollisionFree(c) && ValidClaims(i.cred)
    ensures var r := Judge(c, doc, signed, MsoOf(c, i), audience, nonce, now);
            && OnlyIssued(i, r.disclosedClaims)
            && (r.valid <==> signed.nameSpaces.Some? && AllIssued(c, i, signed.nameSpaces.value) && Bound(c, i, doc, audience, nonce, now))
            && (r.valid <==> r.errors == [])
            && (r.valid ==> r.docType == doc.docType && r.status == i.cred.status
                            && r.disclosedClaims == Scan(c, MsoOf(c, i).valueDigests, signed.nameSpaces.value).claims)
  {
    if signed.nameSpaces.Some? {
      ScanDisclosesIssued(c, i, signed.nameSpaces.value);
    }
    hide OnlyIssued, AllIssued, Scan, ValueDigests;
    assert forall claims: Disclosed :: claims == map[] ==> OnlyIssued(i, claims) by {
      NothingIsIssued(i);
    }
  }

  lemma NothingIsIssued(i: Issuance)
    ensures OnlyIssued(i, map[])
  {
  }

  /** The MSO signed in this response is the one that `issueMdoc` produced in this issuance. */
  ghost predicate CarriesMso(c: Codecs, i: Issuance, doc: Document, issuerJwk: Json) {
    && doc.issuerSigned.Some? && OpenMso(c, issuerJwk, doc.issuerSigned.value.issuerAuth) == Some(MsoOf(c, i))
  }

  /** For any response whatever that carries an issued MSO: each claim disclosed, valid or not, was issued in the
      namespace it is shown in; and the response is valid exactly when every item shown is one the issuer put in
      that namespace, the document type matches, the clock is in the validity window, and the device key of the
      MSO signed this audience and nonce. So an altered or moved item always yields an error. */
  lemma OnlyIssuedItemsAreDisclosed(c: Codecs, i: Issuance, presentation: string, issuerJwk: Json, audience: string, nonce: string, now: int)
    requires CodecsDecode(c) && DigestsCollisionFree(c) && ValidClaims(i.cred)
    requires |c.fromText(presentation)| <= 1_048_576
    requires c.decResponse(c.fromText(presentation)).Some? && CarriesMso(c, i, c.decResponse(c.fromText(presentation)).value, issuerJwk)
    ensures Verify(c, presentation, issuerJwk, audience, nonce, now).Some?
    ensures var doc := c.decResponse(c.fromText(presentation)).value;
            var nss := doc.issuerSigned.value.nameSpaces;
            var r := Verify(c, presentation, issuerJwk, audience, nonce, now).value;
            && OnlyIssued(i, r.disclosedClaims)
            && (r.valid <==> nss.Some? && AllIssued(c, i, nss.value) && Bound(c, i, doc, audience, nonce, now))
            && (r.valid <==> r.errors == [])
  {
    var doc := c.decResponse(c.fromText(presentation)).value;
    JudgeExactly(c, i, doc, doc.issuerSigned.value, audience, nonce, now);
    hide OnlyIssued, AllIssued, Judge, Bound, MsoOf, OpenMso;
  }

  /** Of these signatures, those that verify under the device key are over device authentications for one of these
      audiences and nonces. */
  ghost predicate DeviceSignedOnly(c: Codecs, device: CoseKey, signatures: set<Sign1>, signed: set<(string, string)>) {
    forall sign1 :: sign1 in signatures && CoseOpen(c, JwkOfCose(c, device), Some(sign1)).Some? ==>
      exists a, n, d :: (a, n) in signed && sign1.payload == c.encAuth(DeviceAuth(Some(a), Some(n), d))
  }

  /** Let the holder's key have made, among the signatures in existence, those over the device authentications in
      `signed` only. A valid response answers one of them. */
  lemma HolderSignedForThisSession(
    c: Codecs, i: Issuance, presentation: string, issuerJwk: Json, audience: string, nonce: string, now: int,
    signatures: set<Sign1>, signed: set<(string, string)>)
    requires CodecsDecode(c) && DigestsCollisionFree(c) && ValidClaims(i.cred)
    requires |c.fromText(presentation)| <= 1_048_576
    requires c.decResponse(c.fromText(presentation)).Some? && CarriesMso(c, i, c.decResponse(c.fromText(presentation)).value, issuerJwk)
    requires DeviceSignedOnly(c, i.holder, signatures, signed)
    requires var shown := c.decResponse(c.fromText(presentation)).value.deviceSignature; shown.Some? ==> shown.value in signatures
    requires Verify(c, presentation, issuerJwk, audience, nonce, now).value.valid
    ensures (audience, nonce) in signed
  {
    OnlyIssuedItemsAreDisclosed(c, i, presentation, issuerJwk, audience, nonce, now);
    hide Verify, OnlyIssued, AllIssued, CarriesMso;
    var doc := c.decResponse(c.fromText(presentation)).value;
    assert Bound(c, i, doc, audience, nonce, now);
    var sign1 := doc.deviceSignature.value;
    var a, n, d :| (a, n) in signed && sign1.payload == c.encAuth(DeviceAuth(Some(a), Some(n), d));
    assert c.decAuth(sign1.payload) == Some(DeviceAuth(Some(a), Some(n), d));
  }

  /** The unforgeability premise holds of an honest device whose signatures do verify: of every signature its key made
      for these audiences and nonces. */
  lemma HonestDeviceMeetsThePremise(c: Codecs, holder: PrivateKey, device: CoseKey, signatures: set<Sign1>, signed: set<(string, string)>)
    requires CodecsDecode(c) && SignaturesVerify(c) && CoseOfJwk(c, c.publicJwk(holder)) == Some(device)
    requires forall sign1 :: sign1 in signatures ==>
      exists a, n, d :: (a, n) in signed && sign1 == CoseSign(c, holder, c.encAuth(DeviceAuth(Some(a), Some(n), d)))
    ensures DeviceSignedOnly(c, device, signatures, signed)
    ensures forall sign1 :: sign1 in signatures ==> CoseOpen(c, JwkOfCose(c, device), Some(sign1)).Some?
  {
    CoseKeyRoundTrip(c, device);
    forall sign1 | sign1 in signatures
      ensures CoseOpen(c, JwkOfCose(c, device), Some(sign1)).Some?
    {
      var a, n, d :| (a, n) in signed && sign1 == CoseSign(c, holder, c.encAuth(DeviceAuth(Some(a), Some(n), d)));
      SignedOpens(c, holder, JwkOfCose(c, device), c.encAuth(DeviceAuth(Some(a), Some(n), d)));
    }
    hide CoseOpen, JwkOfCose;
  }

  // -------------------------------------------------------------- end to end

  /** A COSE key survives the trip through a JWK. */
  lemma CoseKeyRoundTrip(c: Codecs, k: CoseKey)
    requires CodecsDecode(c)
    ensures CoseOfJwk(c, JwkOfCose(c, k)) == Some(k)
  {
    assert c.fromText(c.toText(k.x)) == k.x && c.fromText(c.toText(k.y)) == k.y;
  }

  lemma SignedOpens(c: Codecs, key: PrivateKey, jwk: Json, payload: Bytes)
    requires CodecsDecode(c) && SignaturesVerify(c)
    requires CoseOfJwk(c, jwk).Some? && CoseOfJwk(c, jwk) == CoseOfJwk(c, c.publicJwk(key))
    ensures CoseOpen(c, jwk, Some(CoseSign(c, key, payload))) == Some(payload)
  {
    var bytes := c.toBeSigned(c.es256Header, payload);
    assert c.verify(jwk, bytes, c.sign(key, bytes));
  }

  function EntriesMap(entries: seq<(string, Json)>): map<string, Json> {
    if entries == [] then map[] else EntriesMap(entries[..|entries| - 1])[entries[|entries| - 1].0 := entries[|entries| - 1].1]
  }

  function Only(claims: map<string, Json>, wanted: seq<string>): map<string, Json> {
    map el | el in claims && el in wanted :: claims[el]
  }

  /** The credential's claims by namespace. */
  function ClaimsOf(nss: seq<Elements>): Disclosed {
    if nss == [] then map[] else ClaimsOf(nss[..|nss| - 1])[nss[|nss| - 1].ns := EntriesMap(nss[|nss| - 1].entries)]
  }

  /** The revealed claims; a namespace of which nothing is revealed is left out. */
  function Restrict(claims: Disclosed, shown: Reveal): Disclosed {
    map ns | ns in claims && Only(claims[ns], Wanted(shown, ns)) != map[] :: Only(claims[ns], Wanted(shown, ns))
  }

  /** Filtering these items and scanning what is kept discloses the wanted ones of these entries. */
  ghost predicate KeptDisclose(c: Codecs, ns: string, digests: Option<DigestMap>, items: seq<Bytes>, entries: seq<(string, Json)>, wanted: seq<string>) {
    var kept, claims := KeepItems(c, items, wanted), Only(EntriesMap(entries), wanted);
    kept.Some? && ScanItems(c, ns, digests, kept.value) == ItemStage(claims, [], false) && (kept.value == [] <==> claims == map[])
  }

  lemma OneMoreDiscloses(c: Codecs, ns: string, digests: Option<DigestMap>, items: seq<Bytes>, entries: seq<(string, Json)>, wanted: seq<string>,
                         b: Bytes, item: Item)
    requires KeptDisclose(c, ns, digests, items, entries, wanted) && c.decItem(b) == Some(item) && Matches(c, digests, b, item)
    ensures KeptDisclose(c, ns, digests, items + [b], entries + [(item.element, item.value)], wanted)
  {
    KeepOneMore(c, items, b, item, wanted);
    KeptOneMore(c, ns, digests, KeepItems(c, items, wanted).value, b, item);
    EntriesOneMore(entries, item.element, item.value);
    OnlyOneMore(EntriesMap(entries), item.element, item.value, wanted);
    hide KeepItems, ScanItems, EntriesMap, Only, Matches;
    assert item.element in Only(EntriesMap(entries), wanted)[item.element := item.value];
  }

  lemma {:induction false} KeptItemsScan(c: Codecs, i: Issuance, n: nat, k: nat, wanted: seq<string>)
    requires CodecsDecode(c) && ValidClaims(i.cred) && n < |i.cred.namespaces| && k <= |i.cred.namespaces[n].entries|
    ensures var ns, digests := i.cred.namespaces[n].ns, MsoOf(c, i).valueDigests.value;
            KeptDisclose(c, ns, Get(digests, ns), ItemBytes(c, i, n)[..k], i.cred.namespaces[n].entries[..k], wanted)
  {
    if k > 0 {
      KeptItemsScan(c, i, n, k - 1, wanted);
      var ns, items, entries := i.cred.namespaces[n].ns, ItemBytes(c, i, n), i.cred.namespaces[n].entries;
      var item := ItemAt(i, n, k - 1);
      var b := c.encItem(item);
      assert items[..k] == items[..k - 1] + [b] && entries[..k] == entries[..k - 1] + [(item.element, item.value)];
      assert c.decItem(b) == Some(item) && IsItem(i, n, k - 1);
      IssuedMatches(c, i, ns, b);
      OneMoreDiscloses(c, ns, Get(MsoOf(c, i).valueDigests.value, ns), items[..k - 1], entries[..k - 1], wanted, b, item);
      hide *;
    }
  }

  lemma KeepOneMore(c: Codecs, items: seq<Bytes>, b: Bytes, item: Item, wanted: seq<string>)
    requires c.decItem(b) == Some(item) && KeepItems(c, items, wanted).Some?
    ensures var kept := KeepItems(c, items, wanted).value;
            KeepItems(c, items + [b], wanted) == Some(if item.element in wanted then kept + [b] else kept)
  {
    assert (items + [b])[..|items|] == items;
  }

  lemma EntriesOneMore(entries: seq<(string, Json)>, el: string, value: Json)
    ensures EntriesMap(entries + [(el, value)]) == EntriesMap(entries)[el := value]
  {
    assert (entries + [(el, value)])[..|entries|] == entries;
  }

  lemma KeptOneMore(c: Codecs, ns: string, digests: Option<DigestMap>, kept: seq<Bytes>, b: Bytes, item: Item)
    requires c.decItem(b) == Some(item) && Matches(c, digests, b, item) && !ScanItems(c, ns, digests, kept).threw
    ensures var r := ScanItems(c, ns, digests, kept);
            ScanItems(c, ns, digests, kept + [b]) == ItemStage(r.claims[item.element := item.value], r.errors, false)
  {
    assert (kept + [b])[..|kept|] == kept;
  }

  lemma OnlyOneMore(claims: map<string, Json>, el: string, value: Json, wanted: seq<string>)
    ensures Only(claims[el := value], wanted) == if el in wanted then Only(claims, wanted)[el := value] else Only(claims, wanted)
  {
  }

  lemma {:induction false} NamesOfClaims(nss: seq<Elements>, ns: string)
    ensures ns in ClaimsOf(nss) ==> exists n :: 0 <= n < |nss| && nss[n].ns == ns
  {
    if nss != [] {
      NamesOfClaims(nss[..|nss| - 1], ns);
    }
  }

  lemma NameIsNew(cred: MdocClaims, n: nat)
    requires ValidClaims(cred) && n < |cred.namespaces|
    ensures cred.namespaces[n].ns !in ClaimsOf(cred.namespaces[..n])
  {
    NamesOfClaims(cred.namespaces[..n], cred.namespaces[n].ns);
  }

  /** Filtering these namespaces and scanning what is kept discloses the revealed claims of this credential. */
  ghost predicate KeptRestrict(c: Codecs, digests: map<string, DigestMap>, nss: seq<NameSpace>, all: seq<Elements>, shown: Reveal) {
    var kept := KeepNameSpaces(c, nss, shown);
    kept.Some? && Scan(c, Some(digests), kept.value) == Stage(Restrict(ClaimsOf(all), shown), [], false)
  }

  lemma OneMoreRestricts(c: Codecs, digests: map<string, DigestMap>, nss: seq<NameSpace>, all: seq<Elements>, shown: Reveal, items: seq<Bytes>, es: Elements)
    requires KeptRestrict(c, digests, nss, all, shown) && es.ns !in ClaimsOf(all)
    requires KeptDisclose(c, es.ns, Get(digests, es.ns), items, es.entries, Wanted(shown, es.ns))
    ensures KeptRestrict(c, digests, nss + [NameSpace(es.ns, items)], all + [es], shown)
  {
    var last := NameSpace(es.ns, items);
    assert (nss + [last])[..|nss|] == nss && (all + [es])[..|all|] == all;
    var filtered := KeepNameSpaces(c, nss, shown).value;
    var kept := KeepItems(c, items, Wanted(shown, es.ns)).value;
    assert (filtered + [NameSpace(es.ns, kept)])[..|filtered|] == filtered;
    RestrictOneMore(ClaimsOf(all), es.ns, EntriesMap(es.entries), shown);
    hide ScanItems, KeepItems, EntriesMap, Only, Restrict, Wanted;
  }

  lemma {:induction false} KeptNameSpacesScan(c: Codecs, i: Issuance, n: nat, shown: Reveal)
    requires CodecsDecode(c) && ValidClaims(i.cred) && n <= |i.cred.namespaces|
    ensures KeptRestrict(c, MsoOf(c, i).valueDigests.value, NameSpaces(c, i)[..n], i.cred.namespaces[..n], shown)
  {
    if n > 0 {
      hide KeptDisclose, KeptRestrict, ClaimsOf, CodecsDecode, ValueDigests, ValidClaims;
      KeptNameSpacesScan(c, i, n - 1, shown);
      var nss, all, digests := NameSpaces(c, i), i.cred.namespaces, MsoOf(c, i).valueDigests.value;
      var items, es := ItemBytes(c, i, n - 1), all[n - 1];
      assert nss[..n] == nss[..n - 1] + [NameSpace(es.ns, items)] && all[..n] == all[..n - 1] + [es];
      assert items[..|es.entries|] == items && es.entries[..|es.entries|] == es.entries;
      KeptItemsScan(c, i, n - 1, |es.entries|, Wanted(shown, es.ns));
      NameIsNew(i.cred, n - 1);
      hide *;
      OneMoreRestricts(c, digests, nss[..n - 1], all[..n - 1], shown, items, es);
    } else {
      assert NameSpaces(c, i)[..0] == [];
    }
  }

  lemma RestrictOneMore(claims: Disclosed, ns: string, entries: map<string, Json>, shown: Reveal)
    requires ns !in claims
    ensures Restrict(claims[ns := entries], shown) ==
            if Only(entries, Wanted(shown, ns)) == map[] then Restrict(claims, shown) else Restrict(claims, shown)[ns := Only(entries, Wanted(shown, ns))]
  {
  }

  lemma {:induction false} KeptAreIssued(c: Codecs, i: Issuance, n: nat, shown: Reveal)
    requires CodecsDecode(c) && DigestsCollisionFree(c) && ValidClaims(i.cred) && n <= |i.cred.namespaces|
    ensures KeepNameSpaces(c, NameSpaces(c, i)[..n], shown).Some?
    ensures AllIssued(c, i, KeepNameSpaces(c, NameSpaces(c, i)[..n], shown).value)
  {
    KeptNameSpacesScan(c, i, n, shown);
    ScanDisclosesIssued(c, i, KeepNameSpaces(c, NameSpaces(c, i)[..n], shown).value);
    hide AllIssued, ValueDigests, Scan;
  }

  /** Issue, then present, then verify, for every credential, every reveal list and every clock: an oversized
      response is refused; any other is valid exactly inside the validity window, and then discloses exactly the
      revealed claims of each namespace, leaving out namespaces of which nothing is revealed. */
  lemma IssuePresentVerify(c: Codecs, key: PrivateKey, i: Issuance, holder: PrivateKey, shown: Reveal,
                           audience: string, nonce: string, now: int)
    requires CodecsDecode(c) && ContainersAreLonger(c) && DigestsCollisionFree(c) && SignaturesVerify(c) && ValidClaims(i.cred)
    requires CoseOfJwk(c, c.publicJwk(key)).Some? && CoseOfJwk(c, c.publicJwk(holder)) == Some(i.holder)
    ensures var p := CreatePresentation(c, Issue(c, key, i), holder, shown, audience, nonce);
            && p.Some?
            && var r := Verify(c, p.value, c.publicJwk(key), audience, nonce, now);
               && (r.None? <==> |c.fromText(p.value)| > 1_048_576)
               && (r.Some? ==>
                     && (r.value.valid <==> (match i.cred.validFrom case Some(t) => t case None => i.now) <= now <= i.now + i.cred.validityDays * 86400)
                     && (r.value.valid ==>
                           && r.value.disclosedClaims == Restrict(ClaimsOf(i.cred.namespaces), shown)
                           && r.value.docType == Some(i.cred.docType) && r.value.status == i.cred.status))
  {
    var issued := Issue(c, key, i);
    var signed := IssuerSignedOf(c, key, i);
    assert c.decSigned(c.fromText(issued.issuerSigned)) == Some(signed);
    var n := |i.cred.namespaces|;
    assert NameSpaces(c, i)[..n] == NameSpaces(c, i) && i.cred.namespaces[..n] == i.cred.namespaces;
    KeptNameSpacesScan(c, i, n, shown);
    KeptAreIssued(c, i, n, shown);
    var kept := KeepNameSpaces(c, NameSpaces(c, i), shown).value;
    var doc := DocumentOf(c, i.cred.docType, kept, signed.issuerAuth, holder, audience, nonce);
    assert CreatePresentation(c, issued, holder, shown, audience, nonce) == Some(c.toText(c.encResponse(doc)));
    assert c.fromText(c.toText(c.encResponse(doc))) == c.encResponse(doc) && c.decResponse(c.encResponse(doc)) == Some(doc);
    if |c.encResponse(doc)| <= MAX_CBOR_BYTES {
      PresentedOpens(c, key, i, doc);
      DeviceOpens(c, i, holder, audience, nonce, i.cred.docType);
      JudgeExactly(c, i, doc, doc.issuerSigned.value, audience, nonce, now);
    }
    hide AllIssued, Judge, MsoOf, OpenMso, Scan, Restrict, ClaimsOf, KeepNameSpaces, NameSpaces, CoseOpen, CoseSign;
  }

  lemma PresentedOpens(c: Codecs, key: PrivateKey, i: Issuance, doc: Document)
    requires CodecsDecode(c) && ContainersAreLonger(c) && SignaturesVerify(c) && CoseOfJwk(c, c.publicJwk(key)).Some?
    requires doc.issuerSigned.Some? && doc.issuerSigned.value.issuerAuth == IssuerSignedOf(c, key, i).issuerAuth
    requires |c.encResponse(doc)| <= MAX_CBOR_BYTES
    ensures OpenMso(c, c.publicJwk(key), doc.issuerSigned.value.issuerAuth) == Some(MsoOf(c, i))
  {
    var inner := c.encMso(MsoOf(c, i));
    var payload := c.tag24(inner);
    SignedOpens(c, key, c.publicJwk(key), payload);
    hide MsoOf;
    assert |payload| <= |c.encResponse(doc)|;
    assert |inner| <= |payload|;
    assert c.untag(payload) == Some(inner);
  }

  lemma DeviceOpens(c: Codecs, i: Issuance, holder: PrivateKey, audience: string, nonce: string, docType: string)
    requires CodecsDecode(c) && SignaturesVerify(c) && CoseOfJwk(c, c.publicJwk(holder)) == Some(i.holder)
    ensures var da := DeviceAuth(Some(audience), Some(nonce), docType);
            CoseOpen(c, JwkOfCose(c, i.holder), Some(CoseSign(c, holder, c.encAuth(da)))) == Some(c.encAuth(da)) && c.decAuth(c.encAuth(da)) == Some(da)
  {
    CoseKeyRoundTrip(c, i.holder);
    SignedOpens(c, holder, JwkOfCose(c, i.holder), c.encAuth(DeviceAuth(Some(audience), Some(nonce), docType)));
  }
}
