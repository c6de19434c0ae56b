/** What a verifier finds missing from the presentation that this wallet makes of an issued credential: exactly
    the requested claims that the holder withheld, or that the credential lacks or holds as null. */
module DcqlTheorems {
  import opened Basics
  import opened Crypto
  import opened Dcql
  import S = SdJwt
  import ST = SdJwtTheorems
  import D = Mdoc
  import DT = MdocTheorems
  import W = Wallet

  /** The holder lets this name through. */
  predicate Allowed(revealOverride: Option<seq<string>>, name: string) {
    revealOverride.None? || name in revealOverride.value
  }

  /** The value is absent or null. */
  predicate Absent(claims: map<string, Json>, name: string) {
    name !in claims || claims[name] == Null
  }

  predicate SdJwtUnmet(claims: Payload, revealOverride: Option<seq<string>>, p: Path) {
    |p| == 1 && (!Allowed(revealOverride, p[0]) || Absent(claims, p[0]))
  }

  predicate MdocUnmet(claims: D.Disclosed, revealOverride: Option<seq<string>>, p: Path) {
    |p| == 2 && (!Allowed(revealOverride, p[1]) || p[0] !in claims || Absent(claims[p[0]], p[1]))
  }

  lemma OneStep(claims: map<string, Json>, name: string)
    ensures Satisfied(Some(Obj(claims)), [name]) <==> !Absent(claims, name)
  {
    assert [name][1..] == [];
    assert Resolve(Some(Obj(claims)), [name]) == Get(claims, name);
  }

  lemma TwoSteps(claims: D.Disclosed, ns: string, element: string)
    ensures Satisfied(Some(AsObject(claims)), [ns, element]) <==> ns in claims && !Absent(claims[ns], element)
  {
    assert [ns, element][1..] == [element];
    if ns in claims {
      OneStep(claims[ns], element);
      assert Property(AsObject(claims), ns) == Some(Obj(claims[ns]));
      assert Resolve(Some(AsObject(claims)), [ns, element]) == Resolve(Some(Obj(claims[ns])), [element]);
    } else {
      assert Property(AsObject(claims), ns) == None;
      assert Resolve(Some(AsObject(claims)), [ns, element]) == Resolve(None, [element]) == None;
    }
  }

  lemma SdJwtMissing(claims: Payload, paths: seq<Path>, revealOverride: Option<seq<string>>)
    requires forall p :: p in paths ==> |p| == 1
    ensures Missing(paths, Obj(ST.Restrict(claims, W.ToReveal(paths, revealOverride)))) == Select(paths, p => SdJwtUnmet(claims, revealOverride, p))
  {
    var wanted := W.ToReveal(paths, revealOverride);
    var disclosed := ST.Restrict(claims, wanted);
    forall p | p in paths
      ensures !Satisfied(Some(Obj(disclosed)), p) == SdJwtUnmet(claims, revealOverride, p)
    {
      assert p == [p[0]];
      OneStep(disclosed, p[0]);
      W.LastStepsExactly(paths, p[0]);
    }
    SelectAgrees(paths, p => !Satisfied(Some(Obj(disclosed)), p), p => SdJwtUnmet(claims, revealOverride, p));
  }

  lemma Restricted(claims: D.Disclosed, shown: D.Reveal, ns: string, element: string)
    ensures var disclosed := DT.Restrict(claims, shown);
            ns in disclosed && !Absent(disclosed[ns], element) <==>
            ns in claims && !Absent(claims[ns], element) && element in D.Wanted(shown, ns)
  {
    if ns in claims && element in claims[ns] && element in D.Wanted(shown, ns) {
      assert element in DT.Only(claims[ns], D.Wanted(shown, ns));
    }
  }

  lemma MdocMissing(claims: D.Disclosed, paths: seq<Path>, revealOverride: Option<seq<string>>)
    requires forall p :: p in paths ==> |p| == 2
    ensures Missing(paths, AsObject(DT.Restrict(claims, W.GroupReveal(paths, revealOverride)))) ==
            Select(paths, p => MdocUnmet(claims, revealOverride, p))
  {
    var shown := W.GroupReveal(paths, revealOverride);
    var disclosed := DT.Restrict(claims, shown);
    forall p | p in paths
      ensures !Satisfied(Some(AsObject(disclosed)), p) == MdocUnmet(claims, revealOverride, p)
    {
      assert p == [p[0], p[1]];
      TwoSteps(disclosed, p[0], p[1]);
      W.GroupedExactly(paths, revealOverride, p[0], p[1]);
      assert Allowed(revealOverride, p[1]) <==> p[1] in D.Wanted(shown, p[0]);
      Restricted(claims, shown, p[0], p[1]);
      hide DT.Restrict, AsObject, D.Wanted, W.GroupReveal, Satisfied, Absent;
    }
    hide DT.Restrict, AsObject, W.GroupReveal, Satisfied, MdocUnmet;
    SelectAgrees(paths, p => !Satisfied(Some(AsObject(disclosed)), p), p => MdocUnmet(claims, revealOverride, p));
  }

  /** SD-JWT VC: issue, let the wallet choose what to reveal for this query, verify, check the query. */
  lemma {:induction false} SdJwtQueryComposition(
    s: Suite, key: PrivateKey, i: S.Issuance, holder: PrivateKey, paths: seq<Path>, revealOverride: Option<seq<string>>,
    audience: string, nonce: string, t1: int, t2: int)
    requires DisclosuresDecode(s) && SignaturesOpen(s) && PayloadIsInTheText(s) && KeysDecide(s) && S.ValidIssuance(i)
    requires i.holderJwk == s.publicJwk(holder) && i.cred.alwaysDisclosed.Keys !! {"_sd", "_sd_alg", "cnf"}
    requires TimeClaimsHold(S.CredentialPayload(s, i), t2) && t2 - t1 <= 300 && t1 <= t2 + 60
    requires forall p :: p in paths ==> |p| == 1
    ensures var p := S.CreatePresentation(s, S.Issue(s, key, i), holder, W.ToReveal(paths, revealOverride), audience, nonce, t1);
            && p.Some?
            && var r := S.Verify(s, p.value, s.publicJwk(key), audience, nonce, t2);
               r.valid && Missing(paths, Obj(r.disclosedClaims)) == Select(paths, p => SdJwtUnmet(ST.ClaimsMap(i.cred.claims), revealOverride, p))
  {
    ST.RevealedClaimsArriveIntact(s, key, i, holder, W.ToReveal(paths, revealOverride), audience, nonce, t1, t2);
    SdJwtMissing(ST.ClaimsMap(i.cred.claims), paths, revealOverride);
  }

  /** The same for an mdoc of acceptable size, inside its validity window. */
  lemma MdocQueryComposition(
    c: D.Codecs, key: PrivateKey, i: D.Issuance, holder: PrivateKey, paths: seq<Path>, revealOverride: Option<seq<string>>,
    audience: string, nonce: string, now: int)
    requires D.CodecsDecode(c) && D.ContainersAreLonger(c) && D.DigestsCollisionFree(c) && D.SignaturesVerify(c) && D.ValidClaims(i.cred)
    requires D.CoseOfJwk(c, c.publicJwk(key)).Some? && D.CoseOfJwk(c, c.publicJwk(holder)) == Some(i.holder)
    requires forall p :: p in paths ==> |p| == 2
    ensures var p := D.CreatePresentation(c, D.Issue(c, key, i), holder, W.GroupReveal(paths, revealOverride), audience, nonce);
            && p.Some?
            && var r := D.Verify(c, p.value, c.publicJwk(key), audience, nonce, now);
               r.Some? && r.value.valid ==>
                 Missing(paths, AsObject(r.value.disclosedClaims)) == Select(paths, p => MdocUnmet(DT.ClaimsOf(i.cred.namespaces), revealOverride, p))
  {
    DT.IssuePresentVerify(c, key, i, holder, W.GroupReveal(paths, revealOverride), audience, nonce, now);
    MdocMissing(DT.ClaimsOf(i.cred.namespaces), paths, revealOverride);
    hide D.Verify, D.CreatePresentation, DT.Restrict, AsObject, Missing;
  }
}
