/** What the mdoc verifier answers for any response and any security object at all: when it is valid, what it discloses,
    and which errors it lists. */
module MdocVerdicts {
  import opened Basics
  import opened Crypto
  import opened Mdoc

  /** An ES256 signature of this key, over this payload. */
  ghost predicate Signed(c: Codecs, jwk: Json, sign1: Option<Sign1>, payload: Bytes) {
    && sign1.Some? && sign1.value.payload == payload && c.headerAlg(sign1.value.protectedHdr) == Some(-7)
    && c.verify(jwk, c.toBeSigned(sign1.value.protectedHdr, payload), sign1.value.signature)
  }

  /** The issuer's signature over this security object, inside the size limits. */
  ghost predicate MsoShown(c: Codecs, jwk: Json, doc: Document, mso: Mso) {
    && doc.issuerSigned.Some?
    && exists payload, inner ::
         && Signed(c, jwk, doc.issuerSigned.value.issuerAuth, payload) && |payload| <= 1_048_576
         && c.untag(payload) == Some(inner) && |inner| <= 1_048_576 && c.decMso(inner) == Some(mso)
  }

  /** The signature of the security object's device key over this authentication. */
  ghost predicate DeviceShown(c: Codecs, doc: Document, mso: Mso, da: DeviceAuth) {
    && mso.deviceKey.Some?
    && var k := mso.deviceKey.value;
       exists payload ::
         && Signed(c, Obj(map["kty" := Str("EC"), "crv" := Str("P-256"), "x" := Str(c.toText(k.x)), "y" := Str(c.toText(k.y))]), doc.deviceSignature, payload)
         && c.decAuth(payload) == Some(da)
  }

  /** The item's digest is listed under its digest id, in this namespace. */
  ghost predicate Committed(c: Codecs, mso: Mso, ns: string, b: Bytes, item: Item) {
    && mso.valueDigests.Some? && ns in mso.valueDigests.value && item.digestId.Some? && item.digestId.value in mso.valueDigests.value[ns]
    && mso.valueDigests.value[ns][item.digestId.value] == c.sha256(b)
  }

  /** The document shows these bytes in this namespace. */
  ghost predicate Shown(nss: seq<NameSpace>, ns: string, b: Bytes) {
    exists n :: 0 <= n < |nss| && nss[n].name == ns && b in nss[n].items
  }

  /** Nothing in it makes the verifier throw. */
  ghost predicate Readable(c: Codecs, doc: Document, mso: Mso) {
    && doc.issuerSigned.Some? && doc.issuerSigned.value.nameSpaces.Some? && mso.validity.Some?
    && var nss := doc.issuerSigned.value.nameSpaces.value;
       && (forall ns, b :: Shown(nss, ns, b) ==> c.decItem(b).Some?) && (nss != [] ==> mso.valueDigests.Some?)
  }

  /** What each error of a verification that ran to its end says. */
  ghost predicate Told(c: Codecs, doc: Document, mso: Mso, da: DeviceAuth, audience: string, nonce: string, now: int, e: Error)
    requires Readable(c, doc, mso)
  {
    match e
    case DocTypeMismatch => mso.docType != doc.docType
    case DigestMismatch(ns, element) =>
      exists b :: Shown(doc.issuerSigned.value.nameSpaces.value, ns, b) && c.decItem(b).Some? && c.decItem(b).value.element == element
                  && !Committed(c, mso, ns, b, c.decItem(b).value)
    case AudienceMismatch => da.aud != Some(audience)
    case NonceMismatch => da.nonce != Some(nonce)
    case Expired => mso.validity.value.validUntil.Some? && mso.validity.value.validUntil.value < now
    case NotYetValid => mso.validity.value.validFrom.Some? && now < mso.validity.value.validFrom.value
    case VerificationFailed => false
  }

  lemma CommittedIsMatch(c: Codecs, mso: Mso, ns: string, b: Bytes, item: Item)
    requires mso.valueDigests.Some?
    ensures Matches(c, Get(mso.valueDigests.value, ns), b, item) <==> Committed(c, mso, ns, b, item)
  {
  }

  lemma {:induction false} ItemsTell(c: Codecs, mso: Mso, ns: string, items: seq<Bytes>, element: string)
    requires mso.valueDigests.Some?
    ensures var r := ScanItems(c, ns, Get(mso.valueDigests.value, ns), items);
            && (r.threw <==> exists b :: b in items && c.decItem(b).None?)
            && (forall e :: e in r.errors ==> e.DigestMismatch? && e.ns == ns)
            && (!r.threw ==>
                  (DigestMismatch(ns, element) in r.errors <==>
                     exists b :: b in items && c.decItem(b).Some? && c.decItem(b).value.element == element && !Committed(c, mso, ns, b, c.decItem(b).value)))
            && (element in r.claims ==>
                  exists b :: b in items && c.decItem(b).Some? && Committed(c, mso, ns, b, c.decItem(b).value)
                              && c.decItem(b).value.element == element && c.decItem(b).value.value == r.claims[element])
            && (!r.threw ==> forall b :: b in items && Committed(c, mso, ns, b, c.decItem(b).value) ==> c.decItem(b).value.element in r.claims)
  {
    if items != [] {
      var before, b := items[..|items| - 1], items[|items| - 1];
      ItemsTell(c, mso, ns, before, element);
      assert items == before + [b];
      if c.decItem(b).Some? { CommittedIsMatch(c, mso, ns, b, c.decItem(b).value); }
      hide Matches, Committed;
    }
  }

  /** The names of a map are distinct. */
  ghost predicate DistinctNames(nss: seq<NameSpace>) {
    forall m, n :: 0 <= m < n < |nss| ==> nss[m].name != nss[n].name
  }

  lemma ShownOneMore(nss: seq<NameSpace>, last: NameSpace, ns: string, b: Bytes)
    ensures Shown(nss + [last], ns, b) <==> Shown(nss, ns, b) || (last.name == ns && b in last.items)
  {
    var all := nss + [last];
    assert forall n :: 0 <= n < |nss| ==> all[n] == nss[n];
    assert all[|nss|] == last;
  }

  /** The claim was shown in this namespace by a committed item. */
  ghost predicate ShownCommitted(c: Codecs, mso: Mso, nss: seq<NameSpace>, ns: string, element: string, value: Json) {
    exists b :: Shown(nss, ns, b) && c.decItem(b).Some? && Committed(c, mso, ns, b, c.decItem(b).value)
                && c.decItem(b).value.element == element && c.decItem(b).value.value == value
  }

  ghost predicate ShownUncommitted(c: Codecs, mso: Mso, nss: seq<NameSpace>, ns: string, element: string) {
    exists b :: Shown(nss, ns, b) && c.decItem(b).Some? && c.decItem(b).value.element == element && !Committed(c, mso, ns, b, c.decItem(b).value)
  }

  lemma {:induction false} NamespacesThrow(c: Codecs, mso: Mso, nss: seq<NameSpace>)
    requires mso.valueDigests.Some?
    ensures Scan(c, mso.valueDigests, nss).threw <==> exists ns, b :: Shown(nss, ns, b) && c.decItem(b).None?
  {
    if nss != [] {
      var before, last := nss[..|nss| - 1], nss[|nss| - 1];
      NamespacesThrow(c, mso, before);
      ItemsTell(c, mso, last.name, last.items, "");
      assert nss == before + [last];
      forall ns, b ensures Shown(nss, ns, b) <==> Shown(before, ns, b) || (last.name == ns && b in last.items) {
        ShownOneMore(before, last, ns, b);
      }
      hide Shown, ScanItems, Committed;
      if b :| b in last.items && c.decItem(b).None? {
        assert Shown(nss, last.name, b);
      }
      if ns, b :| Shown(before, ns, b) && c.decItem(b).None? {
        assert Shown(nss, ns, b);
      }
    }
  }

  lemma {:induction false} NamespacesTell(c: Codecs, mso: Mso, nss: seq<NameSpace>, ns: string, element: string)
    requires mso.valueDigests.Some?
    ensures var r := Scan(c, mso.valueDigests, nss);
            && (forall e :: e in r.errors ==> e.DigestMismatch?)
            && (!r.threw ==> (DigestMismatch(ns, element) in r.errors <==> ShownUncommitted(c, mso, nss, ns, element)))
            && (ns in r.claims && element in r.claims[ns] ==> ShownCommitted(c, mso, nss, ns, element, r.claims[ns][element]))
  {
    if nss != [] {
      var before, last := nss[..|nss| - 1], nss[|nss| - 1];
      NamespacesTell(c, mso, before, ns, element);
      ItemsTell(c, mso, last.name, last.items, element);
      assert nss == before + [last];
      forall b ensures Shown(nss, ns, b) <==> Shown(before, ns, b) || (last.name == ns && b in last.items) {
        ShownOneMore(before, last, ns, b);
      }
      hide Shown, ScanItems, Committed;
    }
  }

  lemma {:induction false} CommittedAreDisclosed(c: Codecs, mso: Mso, nss: seq<NameSpace>, ns: string, b: Bytes)
    requires mso.valueDigests.Some? && DistinctNames(nss) && !Scan(c, mso.valueDigests, nss).threw
    requires Shown(nss, ns, b) && c.decItem(b).Some? && Committed(c, mso, ns, b, c.decItem(b).value)
    ensures var claims := Scan(c, mso.valueDigests, nss).claims; ns in claims && c.decItem(b).value.element in claims[ns]
  {
    var before, last := nss[..|nss| - 1], nss[|nss| - 1];
    ItemsTell(c, mso, last.name, last.items, "");
    ShownOneMore(before, last, ns, b);
    assert nss == before + [last];
    assert Shown(before, ns, b) ==> ns != last.name;
    if Shown(before, ns, b) {
      CommittedAreDisclosed(c, mso, before, ns, b);
    }
    hide ScanItems, Committed;
  }

  lemma OpensExactly(c: Codecs, jwk: Json, sign1: Option<Sign1>)
    ensures forall payload :: CoseOpen(c, jwk, sign1) == Some(payload) <==> Signed(c, jwk, sign1, payload)
  {
  }

  lemma MsoOpensExactly(c: Codecs, doc: Document, jwk: Json)
    requires doc.issuerSigned.Some?
    ensures forall mso :: OpenMso(c, jwk, doc.issuerSigned.value.issuerAuth) == Some(mso) <==> MsoShown(c, jwk, doc, mso)
  {
    OpensExactly(c, jwk, doc.issuerSigned.value.issuerAuth);
    hide CoseOpen, Signed;
    forall mso ensures OpenMso(c, jwk, doc.issuerSigned.value.issuerAuth) == Some(mso) <==> MsoShown(c, jwk, doc, mso) {
      if OpenMso(c, jwk, doc.issuerSigned.value.issuerAuth) == Some(mso) {
        var payload := CoseOpen(c, jwk, doc.issuerSigned.value.issuerAuth).value;
        assert Signed(c, jwk, doc.issuerSigned.value.issuerAuth, payload);
      }
    }
  }

  lemma DeviceOpensExactly(c: Codecs, doc: Document, mso: Mso)
    ensures forall da :: OpenDeviceAuth(c, mso, doc.deviceSignature) == Some(da) <==> DeviceShown(c, doc, mso, da)
  {
    if mso.deviceKey.Some? {
      OpensExactly(c, JwkOfCose(c, mso.deviceKey.value), doc.deviceSignature);
      hide CoseOpen, Signed;
      forall da ensures OpenDeviceAuth(c, mso, doc.deviceSignature) == Some(da) <==> DeviceShown(c, doc, mso, da) {
        if OpenDeviceAuth(c, mso, doc.deviceSignature) == Some(da) {
          var payload := CoseOpen(c, JwkOfCose(c, mso.deviceKey.value), doc.deviceSignature).value;
          assert Signed(c, JwkOfCose(c, mso.deviceKey.value), doc.deviceSignature, payload);
        }
      }
    }
  }

  lemma ScanThrowsExactly(c: Codecs, doc: Document, mso: Mso)
    requires doc.issuerSigned.Some? && doc.issuerSigned.value.nameSpaces.Some? && mso.validity.Some?
    ensures Readable(c, doc, mso) <==> !Scan(c, mso.valueDigests, doc.issuerSigned.value.nameSpaces.value).threw
  {
    var nss := doc.issuerSigned.value.nameSpaces.value;
    if mso.valueDigests.Some? {
      NamespacesThrow(c, mso, nss);
      hide Scan, Shown;
    } else if nss != [] {
      DigestsMissing(c, nss);
      hide Scan, Shown;
    }
  }

  lemma {:induction false} DigestsMissing(c: Codecs, nss: seq<NameSpace>)
    requires nss != []
    ensures Scan(c, None, nss).threw
  {
    if |nss| > 1 { DigestsMissing(c, nss[..|nss| - 1]); }
  }

  lemma SmallTell(da: DeviceAuth, v: Validity, audience: string, nonce: string, now: int, e: Error)
    ensures e in DeviceErrors(da, audience, nonce) <==> (e == AudienceMismatch && da.aud != Some(audience)) || (e == NonceMismatch && da.nonce != Some(nonce))
    ensures e in ValidityErrors(v, now) <==>
            || (e == Expired && v.validUntil.Some? && v.validUntil.value < now) || (e == NotYetValid && v.validFrom.Some? && now < v.validFrom.value)
  {
  }

  lemma JudgeTells(c: Codecs, doc: Document, mso: Mso, da: DeviceAuth, audience: string, nonce: string, now: int, e: Error)
    requires Readable(c, doc, mso) && DeviceShown(c, doc, mso, da)
    ensures var r := Judge(c, doc, doc.issuerSigned.value, mso, audience, nonce, now);
            && (e in r.errors <==> Told(c, doc, mso, da, audience, nonce, now, e)) && (r.valid <==> r.errors == [])
            && r.docType == doc.docType && r.status == mso.status
            && r.disclosedClaims == Scan(c, mso.valueDigests, doc.issuerSigned.value.nameSpaces.value).claims
  {
    var nss := doc.issuerSigned.value.nameSpaces.value;
    ScanThrowsExactly(c, doc, mso);
    DeviceOpensExactly(c, doc, mso);
    SmallTell(da, mso.validity.value, audience, nonce, now, e);
    ScanErrorsTell(c, doc, mso, e);
    var mismatch := if mso.docType != doc.docType then [DocTypeMismatch] else [];
    assert Judge(c, doc, doc.issuerSigned.value, mso, audience, nonce, now).errors ==
           mismatch + Scan(c, mso.valueDigests, nss).errors + DeviceErrors(da, audience, nonce) + ValidityErrors(mso.validity.value, now);
    hide Readable, DeviceShown, Scan, OpenDeviceAuth, DeviceErrors, ValidityErrors, Shown, Committed;
  }

  lemma ScanErrorsTell(c: Codecs, doc: Document, mso: Mso, e: Error)
    requires Readable(c, doc, mso)
    ensures var nss := doc.issuerSigned.value.nameSpaces.value;
            e in Scan(c, mso.valueDigests, nss).errors <==> e.DigestMismatch? && ShownUncommitted(c, mso, nss, e.ns, e.element)
  {
    var nss := doc.issuerSigned.value.nameSpaces.value;
    ScanThrowsExactly(c, doc, mso);
    if mso.valueDigests.Some? {
      if e.DigestMismatch? { NamespacesTell(c, mso, nss, e.ns, e.element); } else { NamespacesTell(c, mso, nss, "", ""); }
      hide Scan, Shown;
    }
  }

  /** The response opens: its security object and device authentication are signed as they must be, and nothing throws. */
  ghost predicate Opens(c: Codecs, jwk: Json, doc: Document, mso: Mso, da: DeviceAuth) {
    MsoShown(c, jwk, doc, mso) && DeviceShown(c, doc, mso, da) && Readable(c, doc, mso)
  }

  /** For any response within the size limit. One that opens reports an error exactly when it is so, and is valid exactly when
      none is; it discloses only what committed items show, and, when a namespace is listed once, all of that. One that
      does not open is not valid, and says that verification failed. A larger response is refused. */
  lemma VerdictTellsExactly(c: Codecs, presentation: string, jwk: Json, audience: string, nonce: string, now: int)
    ensures var response, r := c.decResponse(c.fromText(presentation)), Verify(c, presentation, jwk, audience, nonce, now);
            if |c.fromText(presentation)| > 1_048_576 then r == None
            else
              && r.Some?
              && (forall mso, da :: response.Some? && Opens(c, jwk, response.value, mso, da) ==>
                    && (forall e :: e in r.value.errors <==> Told(c, response.value, mso, da, audience, nonce, now, e))
                    && (r.value.valid <==> r.value.errors == []) && r.value.docType == response.value.docType && r.value.status == mso.status)
              && ((response.None? || forall mso, da :: !Opens(c, jwk, response.value, mso, da)) ==>
                    !r.value.valid && VerificationFailed in r.value.errors && r.value.status == None)
  {
    hide VerifyDocument, Opens, Told;
    var response := c.decResponse(c.fromText(presentation));
    if |c.fromText(presentation)| <= 1_048_576 && response.Some? {
      DocumentTells(c, response.value, jwk, audience, nonce, now);
    }
  }

  lemma DocumentTells(c: Codecs, doc: Document, jwk: Json, audience: string, nonce: string, now: int)
    ensures var r := VerifyDocument(c, doc, jwk, audience, nonce, now);
            && (forall mso, da :: Opens(c, jwk, doc, mso, da) ==>
                  && (forall e :: e in r.errors <==> Told(c, doc, mso, da, audience, nonce, now, e))
                  && (r.valid <==> r.errors == []) && r.docType == doc.docType && r.status == mso.status)
            && ((forall mso, da :: !Opens(c, jwk, doc, mso, da)) ==> !r.valid && VerificationFailed in r.errors && r.status == None)
  {
    if doc.issuerSigned.Some? { MsoOpensExactly(c, doc, jwk); }
    hide OpenMso, Judge, MsoShown, DeviceShown, Readable, Told;
    forall mso, da | Opens(c, jwk, doc, mso, da)
      ensures var r := VerifyDocument(c, doc, jwk, audience, nonce, now);
              && (forall e :: e in r.errors <==> Told(c, doc, mso, da, audience, nonce, now, e))
              && (r.valid <==> r.errors == []) && r.docType == doc.docType && r.status == mso.status
    {
      OpenedHasItems(c, doc, mso);
      forall e ensures e in Judge(c, doc, doc.issuerSigned.value, mso, audience, nonce, now).errors <==> Told(c, doc, mso, da, audience, nonce, now, e) {
        JudgeTells(c, doc, mso, da, audience, nonce, now, e);
      }
      JudgeTells(c, doc, mso, da, audience, nonce, now, Expired);
    }
    if doc.issuerSigned.Some? && OpenMso(c, jwk, doc.issuerSigned.value.issuerAuth).Some? && forall mso, da :: !Opens(c, jwk, doc, mso, da) {
      var mso := OpenMso(c, jwk, doc.issuerSigned.value.issuerAuth).value;
      assert forall da :: DeviceShown(c, doc, mso, da) && Readable(c, doc, mso) ==> Opens(c, jwk, doc, mso, da);
      ThrownTells(c, doc, mso, audience, nonce, now);
    }
  }

  lemma OpenedHasItems(c: Codecs, doc: Document, mso: Mso)
    requires Readable(c, doc, mso)
    ensures doc.issuerSigned.Some?
  {
  }

  lemma ThrownTells(c: Codecs, doc: Document, mso: Mso, audience: string, nonce: string, now: int)
    requires doc.issuerSigned.Some? && forall da :: !(DeviceShown(c, doc, mso, da) && Readable(c, doc, mso))
    ensures var r := Judge(c, doc, doc.issuerSigned.value, mso, audience, nonce, now); !r.valid && VerificationFailed in r.errors && r.status == None
  {
    DeviceOpensExactly(c, doc, mso);
    if doc.issuerSigned.value.nameSpaces.Some? && mso.validity.Some? { ScanThrowsExactly(c, doc, mso); }
    var device := OpenDeviceAuth(c, mso, doc.deviceSignature);
    assert device.Some? ==> DeviceShown(c, doc, mso, device.value);
    hide Scan, OpenDeviceAuth, Readable, DeviceShown, DeviceErrors, ValidityErrors;
    var errors := Judge(c, doc, doc.issuerSigned.value, mso, audience, nonce, now).errors;
    assert errors[|errors| - 1] == VerificationFailed;
  }

  /** Valid or not, whatever is disclosed was shown by an item whose digest the opened security object lists in that
      namespace; and a response that opens discloses every such item, when it lists a namespace once. */
  lemma DisclosedExactly(c: Codecs, presentation: string, jwk: Json, audience: string, nonce: string, now: int, ns: string, element: string)
    requires |c.fromText(presentation)| <= 1_048_576 && c.decResponse(c.fromText(presentation)).Some?
    ensures var doc, r := c.decResponse(c.fromText(presentation)).value, Verify(c, presentation, jwk, audience, nonce, now);
            && r.Some?
            && (ns in r.value.disclosedClaims && element in r.value.disclosedClaims[ns] ==>
                  exists mso :: MsoShown(c, jwk, doc, mso) && doc.issuerSigned.value.nameSpaces.Some? &&
                    ShownCommitted(c, mso, doc.issuerSigned.value.nameSpaces.value, ns, element, r.value.disclosedClaims[ns][element]))
            && (forall mso, da, b ::
                  (&& Opens(c, jwk, doc, mso, da) && DistinctNames(doc.issuerSigned.value.nameSpaces.value)
                   && Shown(doc.issuerSigned.value.nameSpaces.value, ns, b) && Committed(c, mso, ns, b, c.decItem(b).value))
                  ==> ns in r.value.disclosedClaims && c.decItem(b).value.element in r.value.disclosedClaims[ns])
  {
    var doc := c.decResponse(c.fromText(presentation)).value;
    if doc.issuerSigned.Some? { MsoOpensExactly(c, doc, jwk); }
    hide OpenMso, MsoShown, Judge, DeviceShown, Readable, Shown, Committed, Scan, DistinctNames;
    if doc.issuerSigned.Some? && OpenMso(c, jwk, doc.issuerSigned.value.issuerAuth).Some? {
      var mso := OpenMso(c, jwk, doc.issuerSigned.value.issuerAuth).value;
      JudgeShows(c, doc, mso, audience, nonce, now, ns, element);
      forall mso', da, b | Opens(c, jwk, doc, mso', da) && DistinctNames(doc.issuerSigned.value.nameSpaces.value) &&
                           Shown(doc.issuerSigned.value.nameSpaces.value, ns, b) && Committed(c, mso', ns, b, c.decItem(b).value)
        ensures var claims := Judge(c, doc, doc.issuerSigned.value, mso, audience, nonce, now).disclosedClaims;
                ns in claims && c.decItem(b).value.element in claims[ns]
      {
        JudgeTells(c, doc, mso, da, audience, nonce, now, Expired);
        CommittedIsDisclosed(c, doc, mso, ns, b);
      }
    }
  }

  lemma JudgeShows(c: Codecs, doc: Document, mso: Mso, audience: string, nonce: string, now: int, ns: string, element: string)
    requires doc.issuerSigned.Some?
    ensures var claims := Judge(c, doc, doc.issuerSigned.value, mso, audience, nonce, now).disclosedClaims;
            ns in claims && element in claims[ns] ==>
              doc.issuerSigned.value.nameSpaces.Some? && ShownCommitted(c, mso, doc.issuerSigned.value.nameSpaces.value, ns, element, claims[ns][element])
  {
    if doc.issuerSigned.value.nameSpaces.Some? {
      var nss := doc.issuerSigned.value.nameSpaces.value;
      if mso.valueDigests.Some? { NamespacesTell(c, mso, nss, ns, element); } else { NothingWithoutDigests(c, nss); }
    }
    hide Scan, OpenDeviceAuth, DeviceErrors, ValidityErrors, ShownCommitted, Committed;
  }

  lemma {:induction false} NothingWithoutDigests(c: Codecs, nss: seq<NameSpace>)
    ensures Scan(c, None, nss).claims == map[]
  {
    if nss != [] { NothingWithoutDigests(c, nss[..|nss| - 1]); }
  }

  lemma CommittedIsDisclosed(c: Codecs, doc: Document, mso: Mso, ns: string, b: Bytes)
    requires Readable(c, doc, mso) && DistinctNames(doc.issuerSigned.value.nameSpaces.value)
    requires Shown(doc.issuerSigned.value.nameSpaces.value, ns, b) && c.decItem(b).Some? && Committed(c, mso, ns, b, c.decItem(b).value)
    ensures var claims := Scan(c, mso.valueDigests, doc.issuerSigned.value.nameSpaces.value).claims; ns in claims && c.decItem(b).value.element in claims[ns]
  {
    ScanThrowsExactly(c, doc, mso);
    CommittedAreDisclosed(c, mso, doc.issuerSigned.value.nameSpaces.value, ns, b);
    hide Scan, Shown, DistinctNames;
  }

  // ------------------------------------------------------------------ issuance

  /** How many items come before this one, over all namespaces in order. */
  function ItemsBefore(nss: seq<Elements>, n: nat, k: nat): nat
    requires n <= |nss|
  {
    if n == 0 then k else ItemsBefore(nss[..n - 1], n - 1, |nss[n - 1].entries|) + k
  }

  lemma {:induction false} FirstIdCounts(nss: seq<Elements>, n: nat, k: nat)
    requires n <= |nss|
    ensures FirstId(nss, n) + k == ItemsBefore(nss, n, k)
    decreases n
  {
    if n > 0 {
      FirstIdCounts(nss[..n - 1], n - 1, |nss[n - 1].entries|);
      FirstIdOfPrefix(nss, n - 1, n - 1);
    }
  }

  lemma {:induction false} FirstIdOfPrefix(nss: seq<Elements>, m: nat, n: nat)
    requires n <= m <= |nss|
    ensures FirstId(nss[..m], n) == FirstId(nss, n)
  {
    if n > 0 { FirstIdOfPrefix(nss, m, n - 1); }
  }

  /** The namespaces in order, each with its claims in order, each claim as an item under its own running number and with
      its own salt. */
  ghost predicate HoldsItems(c: Codecs, i: Issuance, nss: seq<NameSpace>) {
    && |nss| == |i.cred.namespaces|
    && (forall n :: 0 <= n < |nss| ==> nss[n].name == i.cred.namespaces[n].ns && |nss[n].items| == |i.cred.namespaces[n].entries|)
    && forall n, k :: 0 <= n < |nss| && 0 <= k < |nss[n].items| ==>
         var id := ItemsBefore(i.cred.namespaces, n, k);
         c.decItem(nss[n].items[k]) == Some(Item(Some(id), i.salts(id), i.cred.namespaces[n].entries[k].0, i.cred.namespaces[n].entries[k].1))
  }

  /** A security object, signed with the issuer's key, that names the holder's key, the document type, the window and the
      status. */
  ghost predicate SignsMso(c: Codecs, key: PrivateKey, i: Issuance, auth: Sign1) {
    && auth.protectedHdr == c.es256Header && auth.signature == c.sign(key, c.toBeSigned(auth.protectedHdr, auth.payload))
    && exists mso: Mso ::
         && auth.payload == c.tag24(c.encMso(mso)) && mso.deviceKey == Some(i.holder) && mso.docType == Some(i.cred.docType) && mso.status == i.cred.status
         && mso.validity == Some(Validity(Some(if i.cred.validFrom.Some? then i.cred.validFrom.value else i.now), Some(i.now + i.cred.validityDays * 86_400)))
  }

  lemma ItemIsHeld(c: Codecs, i: Issuance, n: nat, k: nat)
    requires CodecsDecode(c) && n < |i.cred.namespaces| && k < |i.cred.namespaces[n].entries|
    ensures var id := ItemsBefore(i.cred.namespaces, n, k);
            c.decItem(NameSpaces(c, i)[n].items[k]) == Some(Item(Some(id), i.salts(id), i.cred.namespaces[n].entries[k].0, i.cred.namespaces[n].entries[k].1))
  {
    FirstIdCounts(i.cred.namespaces, n, k);
    assert NameSpaces(c, i)[n].items[k] == c.encItem(ItemAt(i, n, k));
    hide ItemsBefore, FirstId, NameSpaces;
    assert c.decItem(c.encItem(ItemAt(i, n, k))) == Some(ItemAt(i, n, k));
  }

  lemma ItemsAreHeld(c: Codecs, i: Issuance)
    requires CodecsDecode(c)
    ensures HoldsItems(c, i, NameSpaces(c, i))
  {
    var nss := NameSpaces(c, i);
    hide ItemsBefore, ItemAt, CodecsDecode;
    assert |nss| == |i.cred.namespaces| && forall n :: 0 <= n < |nss| ==> nss[n].name == i.cred.namespaces[n].ns && |nss[n].items| == |i.cred.namespaces[n].entries|;
    hide NameSpaces;
    forall n, k | 0 <= n < |nss| && 0 <= k < |nss[n].items|
      ensures var id := ItemsBefore(i.cred.namespaces, n, k);
              c.decItem(nss[n].items[k]) == Some(Item(Some(id), i.salts(id), i.cred.namespaces[n].entries[k].0, i.cred.namespaces[n].entries[k].1))
    {
      ItemIsHeld(c, i, n, k);
    }
  }

  lemma MsoIsSigned(c: Codecs, key: PrivateKey, i: Issuance)
    ensures SignsMso(c, key, i, CoseSign(c, key, c.tag24(c.encMso(MsoOf(c, i)))))
  {
    assert MsoOf(c, i).status == i.cred.status;
    hide ValueDigests;
  }

  /** What the issued text holds. */
  lemma IssuedTextReadsBack(c: Codecs, key: PrivateKey, i: Issuance)
    requires CodecsDecode(c)
    ensures var signed := c.decSigned(c.fromText(Issue(c, key, i).issuerSigned));
            && Issue(c, key, i).docType == i.cred.docType && signed.Some? && signed.value.nameSpaces.Some? && signed.value.issuerAuth.Some?
            && HoldsItems(c, i, signed.value.nameSpaces.value) && SignsMso(c, key, i, signed.value.issuerAuth.value)
  {
    ItemsAreHeld(c, i);
    MsoIsSigned(c, key, i);
    assert c.decSigned(c.fromText(Issue(c, key, i).issuerSigned)) == Some(IssuerSignedOf(c, key, i));
    hide NameSpaces, HoldsItems, SignsMso, MsoOf, CoseSign, CodecsDecode;
  }
}
