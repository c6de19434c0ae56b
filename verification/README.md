# Digilompakko verification

A Dafny model of the Digilompakko issuer, wallet and verifier, with proofs of what they promise over every input,
every run and every interleaving. `dafny verify dfyconfig.toml` checks all of it.

## What is modelled

| module | component |
|---|---|
| `IssuerModel`, `IssuerGrants`, `IssuerTheorems`, `IssuerRuns`, `IssuerSweep`, `IssuerService`, `IssuerAnswers`, `IssuerServer` | the OpenID4VCI issuer's grant machine |
| `VerifierModel`, `VerifierTheorems`, `VerifierVerdicts`, `VerifierService`, `VerifierAnswers`, `VerifierServer` | the OpenID4VP verifier's session machine |
| `CompactForm`, `SdJwt`, `SdJwtTheorems` | SD-JWT VC: compact form, issue, present, verify |
| `Mdoc`, `MdocTheorems`, `MdocVerdicts` | ISO mdoc: issue, present, verify |
| `Dcql`, `DcqlTheorems`, `EndToEnd` | query enforcement, and the formats composed with the wallet and the verifier |
| `StatusLists`, `Revocation`, `IssuedCredentials` | the Token Status List, the credentials the issuer answers, and revocation from the issuer's run to the verifier's |
| `RequestObject`, `Wallet`, `SafeFetch`, `Addresses` | the wallet's egress: signed requests, origin checks, redirects, address ranges |
| `HonestFlow` | issuer, wallet and verifier together, from the request to the verdict |
| `Trust` | the trusted-issuer key cache |
| `SignatureDer` | DER and raw ECDSA signatures on Android |
| `Basics`, `Crypto` | JSON values, string splitting, and the cryptographic libraries as functions |

**Server machines.** A handler is cut at each `await`; one `Step` is one stretch of code between two of them. The state
holds an explicit heap of the objects that the program shares between stores and suspended handlers. Clock readings,
random identifiers and the results of awaited calls are parts of the events, so a run is any sequence of timed
events. The handlers only decide on an effect; `Perform` carries it out, and every invariant is proved effect by effect.
`IssuerServer.Issuer` and `VerifierServer.Verifier` are the same machines as the program has them: maps of mutable
objects, updated in place and swept by loops. Each of their methods is proved to make exactly one `Step`.

**History.** `IssuerGrants.Past` is a ledger computed from a run. It names, for every pending record, the offer or the pushed
request it descends from. Conservation and provenance are stated with it; nothing in the machine depends on it.
`VerifierVerdicts.Trail` does the same for a verdict: it names the position of each handler stretch that led to it.

**Answers.** `IssuerAnswers` and `VerifierAnswers` say what each request is answered from the log of requests and answers alone: what
was minted or opened when, and what has used it up or dropped it since. The results listed below name no handler of the model.

**Cryptography and codecs** are fields of the records `Crypto.Suite`, `Mdoc.Codecs` and `StatusLists.ListCodec`: functions about
which nothing is known. A theorem that needs a law asks for it by name: `CollisionFree`, `DisclosuresDecode`,
`PayloadIsInTheText`, `SignaturesOpen`, `KeysDecide`, `OpenChecksTime`, `CodecsDecode`, `ContainersAreLonger`, `DigestsCollisionFree`,
`SignaturesVerify`, `InflateUndoesDeflate`. Unforgeability is a premise about a given set of texts, those in existence; lemmas
show that honest signers meet it. The network is an arbitrary function from the requests made so far to a reply.

**Results worth knowing.**

- `SdJwtTheorems.IssuePresentVerify`: the always-disclosed claims are spread over the payload last, so they can replace `_sd`, `_sd_alg`
  or `cnf`. The lemma says, of the issuer's inputs, for which spreads a presentation verifies; `SpreadCanEraseTheCommitments` is one where it does not.
- `SignatureDer.DerRoundTrip`: `derToJose` ignores the sequence length and trailing bytes, and takes an INTEGER for signed. The
  round trip holds exactly for canonical encodings; `NegativeIntegerIsMisread` is one that is accepted and misread.
- `SignatureDer.Fit32IsModulo`: `to32Bytes` gives the value modulo 2^256 exactly when the value is not a negative number that fits in
  fewer than 32 bytes.
- `StatusLists.ListIsSetExactlyUpToInt32`: JavaScript shifts work on 32 bits, so a list is the set it stands for exactly up to
  2^31 entries; `IndexPastInt32ReadsValid` says what a reader makes of a larger index.
- `RequestObject.RequestsLapseExactlyWithExpiry`: the comment on `verifyPresentationRequest` lists "exp present" among the checks; the code
  does not require it. The model follows the code, and the lemma says exactly which requests never lapse.
- `Addresses.NamesAreRefusedExactly`: the prefix test for local IPv6 literals also matches ordinary host names; those that begin with `fc`, `fd`,
  `fe8`, `fe9`, `fea` or `feb` cannot be fetched.
- `docs/COMPLIANCE.md` says that the verifier checks `vct_values` and the document type; the code checks claim paths only, and so
  does the model.
- A failed PKCE check leaves the authorization code alive, and a full token store consumes the grant. Both are kept.

## Model

| member | source | states |
|---|---|---|
| IssuerRuns.GrantsAreConserved | apps/issuer/src/server.ts:63-72 | after any run, every stored code, token, suspended handler and sent credential descends from one granted offer or PAR; no two descend from the same one; no pending record is reachable twice; every store is within 10 000 |
| IssuerRuns.OneCredentialPerGrant | apps/issuer/src/server.ts:287-343 | every credential sent had its proof accepted for the same index, configuration and grant, and two credentials never share a grant or an index |
| IssuerRuns.AcceptedProofsHaveProvenance | apps/issuer/src/server.ts:189-319 | an accepted proof answers a token redeemed in time from an offer at most 330 s old for the same configuration, or from a PAR at most 450 s old whose client and S256 challenge matched |
| IssuerRuns.ProvenanceIsUnique | apps/issuer/src/server.ts:255-279 | when no identifier is minted twice, the offer or PAR behind an accepted proof is unique |
| IssuerRuns.StatusIndicesAreDistinct | apps/issuer/src/server.ts:322-339 | status indices are handed out in ascending order under every interleaving and failure, and the admin log never repeats one |
| IssuerRuns.RevokedIsHistory | apps/issuer/src/server.ts:352-361 | the revoked set is exactly the set of indices whose revocation was accepted so far, each below 1024; so it only grows |
| IssuerRuns.PublishedListsAreExact | apps/issuer/src/server.ts:346-349 | a published list contains an index if and only if its revocation was accepted before |
| IssuerRuns.RunKeepsInvariant | apps/issuer/src/server.ts:118-343 | the machine's invariant (references, conservation, indices, caps, and an explanation of every entry in the log) holds after every run |
| IssuerRuns.RunKeepsProvenance | apps/issuer/src/server.ts:287-343 | over every run, proofs, signing handlers and credentials sent are each traced to the redemption they rest on |
| IssuerTheorems.StepKeepsInvariant | apps/issuer/src/server.ts:167-361 | one stretch of any handler, or one sweep, keeps that invariant |
| IssuerTheorems.EffectKeepsCaps | apps/issuer/src/server.ts:171-278 | the guards keep each of the four stores within its cap |
| IssuerTheorems.RecordUntouched | apps/issuer/src/server.ts:269-275 | redeeming one grant changes no record that another entry reaches |
| IssuerGrants.EffectTransfers | apps/issuer/src/server.ts:171-303 | every effect moves at most one entry from one place to another, leaves all others as they were, and conserves the grants |
| IssuerGrants.EffectKeepsIndices | apps/issuer/src/server.ts:324-335 | indices being signed, sent and logged stay pairwise distinct below the counter, although an mDL is logged after its signature and a PID before |
| IssuerModel.StepKeepsWf | apps/issuer/src/server.ts:63-72 | no step leaves a store or a handler with a dangling reference |
| IssuerSweep.SweepsAreTransparent | apps/issuer/src/server.ts:118-133 | delete any of the sweeps from any run with a forward clock: all other responses are identical, provided the run left over never meets a full store |
| IssuerSweep.StepLags | apps/issuer/src/server.ts:211-303 | a state that lacks some expired entries gives the same response to every request and goes on lacking expired entries only |
| IssuerSweep.NoTokenShares | apps/issuer/src/server.ts:256-275 | no token shares the record of a grant about to be redeemed, so a redemption never revives an expired token |
| IssuerService.OfferLeadsToCredential | apps/issuer/src/server.ts:167-343 | an offer redeemed within 30 s by an honest holder leads to a credential of the offered configuration, whatever others request in between and whenever the sweep runs, while no store is full |
| IssuerService.ParLeadsToCredential | apps/issuer/src/server.ts:189-343 | PAR, authorization and code redemption in time, with the verifier that answers the challenge, lead to a PID credential under every interleaving |
| IssuerService.StepLeaves | apps/issuer/src/server.ts:118-343 | a step that does not name an entry, and a sweep before its deadline, leave the entry and its pending record as they are |
| IssuerAnswers.ThereExactly | apps/issuer/src/server.ts:101-133 | an offer, PAR, code or token inside its lifetime is stored exactly when no request has used it up since it was minted |
| IssuerAnswers.OfferHonouredExactly | apps/issuer/src/server.ts:167-279 | an offer is redeemed exactly within its lifetime, by the first request that names it, while there is room; the answer to every request, from the log |
| IssuerAnswers.ParHonouredExactly | apps/issuer/src/server.ts:189-231 | a pushed request is authorized exactly within its lifetime and once, while there is room |
| IssuerAnswers.CodeHonouredExactly | apps/issuer/src/server.ts:239-279 | a code is redeemed exactly within 60 s, by the client of the PAR behind it and with the verifier that answers its challenge, if nothing has used it up: a redemption, or an attempt by another client |
| IssuerAnswers.MisusedCodeIsDead | apps/issuer/src/server.ts:241-254 | once a request named a stored code with another client, or after its lifetime, no later request gets a token for it unless it is minted again |
| IssuerAnswers.FailedPkceLeavesTheCode | apps/issuer/src/server.ts:255-258 | however many requests of the right client brought a wrong verifier, the next one in time with the right verifier gets its token, while there is room |
| IssuerAnswers.TokenHonouredExactly | apps/issuer/src/server.ts:287-303 | a token is honoured exactly for 300 s and until a request with a proof has used it up, whatever became of that |
| IssuerAnswers.UnmintedIsRefused | apps/issuer/src/server.ts:208-293 | a name that was never minted is refused everywhere, with the error of each endpoint |
| IssuerAnswers.AnsweredAtOnce | apps/issuer/src/server.ts:167-204 | offers, pushed requests and revocations: which are refused, with what, and what the others are answered |
| IssuerAnswers.ProofAnsweredExactly | apps/issuer/src/server.ts:305-320 | a proof is accepted exactly when it carries the c_nonce given out with the token used and this issuer's URL, at most 300 s after |
| IssuerAnswers.IndicesCountUp | apps/issuer/src/server.ts:322-339 | status indices count up from 0 in the order of acceptance, and the admin log is exactly what was answered |
| IssuerServer.Issuer.PostOffer | apps/issuer/src/server.ts:167-186 | refines the offer step: unknown configuration, full store, or a new shared record |
| IssuerServer.Issuer.PostPar | apps/issuer/src/server.ts:189-204 | refines the PAR step |
| IssuerServer.Issuer.GetAuthorize | apps/issuer/src/server.ts:208-231 | refines the authorization step: unknown, expired and deleted, full, or PAR exchanged for a code |
| IssuerServer.Issuer.PostToken | apps/issuer/src/server.ts:234-284 | refines the token step, including the grant that a full store consumes |
| IssuerServer.Issuer.TakeGrant | apps/issuer/src/server.ts:239-267 | consumes the code or refuses as the redemption rules say: what is deleted on expiry and client mismatch, and not on a failed PKCE check |
| IssuerServer.Issuer.GiveToken | apps/issuer/src/server.ts:269-279 | stamps the shared record first and stores the token only if there is room |
| IssuerServer.Issuer.PostCredential | apps/issuer/src/server.ts:287-311 | refines the first stretch: the token is consumed before the first await |
| IssuerServer.Issuer.KeyImported | apps/issuer/src/server.ts:306-311 | refines the second stretch |
| IssuerServer.Issuer.ProofChecked | apps/issuer/src/server.ts:313-335 | refines the third stretch: nonce, age and audience, then the index |
| IssuerServer.Issuer.CredentialSigned | apps/issuer/src/server.ts:326-339 | refines the last stretch |
| IssuerServer.Issuer.Sweep | apps/issuer/src/server.ts:118-132 | the four deleting loops together are the sweep step |
| IssuerServer.Issuer.SweepTokens | apps/issuer/src/server.ts:129-131 | the loop keeps exactly the tokens that are not expired |
| IssuerServer.Issuer.PostRevoke | apps/issuer/src/server.ts:352-361 | sets the bit in the packed list exactly when the index is in range, and the bits go on being the revoked set |
| IssuerServer.Issuer.GetStatusList | apps/issuer/src/server.ts:346-349 | the bytes to be signed pack exactly the revoked set |
| IssuerServer.PacksOneMore | packages/core/src/status-list.ts:38-44 | setting one bit adds one member to the set the bytes stand for |
| VerifierTheorems.NonceVerifiedAtMostOnce | apps/verifier/src/server.ts:162-220 | over any interleaving of posts, polls and sweeps, a session's nonce reaches verification at most once |
| VerifierTheorems.ResultReadAtMostOnce | apps/verifier/src/server.ts:253-259 | a result token yields a result at most once |
| VerifierVerdicts.ResultsAreSound | apps/verifier/src/server.ts:162-259 | every verdict sent or polled has a trail in the run: one session and one life of one handler, which was served at the positions of the trail and at no others; the post in the session's lifetime, the key of a trusted issuer the presentation names, the check at that stretch's time for that session's nonce, and the list that stretch fetched, read at that stretch's time; it is valid if and only if it lists no error, and if and only if the presentation verified, the status read VALID where one is referenced, and no path is missing; a polled verdict is the one concluded in the session of that result token |
| VerifierVerdicts.TrailIsUnique | apps/verifier/src/server.ts:162-259 | when nonces and result tokens are minted once, a verdict has one trail: its session, its handler and every position that led to it are determined |
| VerifierTheorems.RunIsSingle | apps/verifier/src/server.ts:177-185 | a session never has two handlers, and none once it has a result |
| VerifierVerdicts.RunIsSound | apps/verifier/src/server.ts:190-245 | after every run, each suspended handler and each stored result has its trail in the log, listing every position at which the handler was served since it set out |
| VerifierVerdicts.ConcludedSaysSo | apps/verifier/src/server.ts:219-245 | a concluded verdict discloses what was checked, and is valid exactly under those conditions |
| VerifierService.FirstPostInTimeIsTaken | apps/verifier/src/server.ts:162-185 | under every interleaving a readable presentation is taken up if and only if its session is at most five minutes old and no earlier post has used it up |
| VerifierService.StepLookup | apps/verifier/src/server.ts:107-185 | a stored session goes only when its lifetime has passed, and is used up only by a post to it |
| VerifierAnswers.StoredExactly | apps/verifier/src/server.ts:107-185 | the session stored under an identifier is the one last opened under it, until a sweep or a post drops it after five minutes; and it is used up exactly by the posts taken up since |
| VerifierAnswers.RequestObjectsCarryTheNonce | apps/verifier/src/server.ts:142-160 | a request object carries the nonce and format of the session that stands under its identifier, never its result token; a standing session always gives one out, an unknown identifier is answered 404 |
| VerifierAnswers.RequestedNonceIsVerified | apps/verifier/src/server.ts:142-220 | what is posted for a request is verified with the nonce of its request object |
| VerifierAnswers.RequestAnsweredExactly | apps/verifier/src/server.ts:125-140 | a request is answered with the identifier and result token just minted, or 429 at 10 000 sessions |
| VerifierAnswers.PostAnsweredExactly | apps/verifier/src/server.ts:162-190 | 404 without a session, 400 when it is older than five minutes, used up or the token is empty, 500 when the token cannot be read, and otherwise taken up |
| VerifierAnswers.TrustAnsweredExactly | apps/verifier/src/server.ts:190-220 | a handler goes on exactly with the key of a trusted issuer that the presentation names, to verification with its own session's nonce; 403 for any other |
| VerifierAnswers.CheckAnsweredExactly | apps/verifier/src/server.ts:192-245 | what the verification stretch answers: 400, the verdict, or on to the list of a valid credential |
| VerifierAnswers.FetchAnsweredExactly | apps/verifier/src/server.ts:195-227 | a list that cannot be fetched ends the handler with 400 |
| VerifierAnswers.StatusAnsweredExactly | apps/verifier/src/server.ts:196-245 | the status is read at the index and list of the checked credential, under the key that came and for the issuer named; the verdict lists the errors of the check, then a revocation, then the missing paths |
| VerifierAnswers.ChecksAreVerifications | apps/verifier/src/server.ts:192-222 | the check of a presentation is the library's verification for this verifier and that nonce, with its errors, claims and status reference |
| VerifierAnswers.PollAnsweredExactly | apps/verifier/src/server.ts:253-259 | a poll reads the verdict that a handler of the session reached, if no poll has come since; pending otherwise while the session stands; 404 once it is gone |
| VerifierAnswers.UnknownTokenIsRefused | apps/verifier/src/server.ts:253-255 | a result token that no request was given is answered 404 |
| VerifierServer.Verifier.PostRequest | apps/verifier/src/server.ts:125-140 | refines the request step |
| VerifierServer.Verifier.GetRequest | apps/verifier/src/server.ts:142-160 | refines the request-object step |
| VerifierServer.Verifier.PostResponse | apps/verifier/src/server.ts:162-217 | refines the first stretch: unknown, expired and deleted, used, empty, or consumed before the first await |
| VerifierServer.Verifier.TrustResolved | apps/verifier/src/server.ts:190-220 | refines the stretch after trust resolution |
| VerifierServer.Verifier.PresentationVerified | apps/verifier/src/server.ts:192-226 | refines the stretch after verification |
| VerifierServer.Verifier.StatusFetched | apps/verifier/src/server.ts:195-227 | refines the stretch after the status list was fetched |
| VerifierServer.Verifier.StatusRead | apps/verifier/src/server.ts:196-232 | refines the stretch after the status was read |
| VerifierServer.Verifier.Conclude | apps/verifier/src/server.ts:203-245 | checks the query, stores the verdict in the session and sends it |
| VerifierServer.Verifier.GetResult | apps/verifier/src/server.ts:253-259 | refines the polling step: first session with the token, then purge |
| VerifierServer.Verifier.FirstWith | apps/verifier/src/server.ts:254-255 | finds the first session in map order with this result token, if there is one |
| VerifierServer.Verifier.Sweep | apps/verifier/src/server.ts:107-112 | the deleting loop is the sweep step |
| CompactForm.ParseCompact | packages/core/src/sd-jwt.ts:68-79 | the shifting and popping parser computes the specified reading of the string |
| CompactForm.ParseOfPrint | packages/core/src/sd-jwt.ts:63-79 | parsing undoes printing if and only if the parts are tilde-free and a KB-JWT is not empty |
| CompactForm.PrintOfParse | packages/core/src/sd-jwt.ts:68-79 | printing undoes parsing if and only if the string has a tilde |
| CompactForm.UniqueReading | packages/core/src/sd-jwt.ts:68-79 | a string with a tilde parses to exactly the one well-formed value that prints it |
| CompactForm.HeadIsPresentationHead | packages/core/src/sd-jwt.ts:102-192 | the head the verifier cuts off at the last tilde is the head the holder signed |
| CompactForm.HeadDeterminesDisclosures | packages/core/src/sd-jwt.ts:192-193 | equal heads carry the same JWS and the same disclosures in the same order |
| SdJwt.VerifyPresentation | packages/core/src/sd-jwt.ts:118-205 | the accumulating verifier computes the specified result for every input string |
| SdJwt.ScanDisclosures | packages/core/src/sd-jwt.ts:156-165 | the disclosure loop collects what the specification says, up to the first disclosure that does not decode |
| SdJwt.CopyVisible | packages/core/src/sd-jwt.ts:151-153 | the copying loop keeps exactly the claims other than the three reserved ones |
| SdJwtTheorems.DisclosedClaimsAreCommitted | packages/core/src/sd-jwt.ts:155-165 | for any input, valid or not, each disclosed claim was committed in the `_sd` that the issuer's key signed |
| SdJwtTheorems.OnlyIssuedClaimsAreDisclosed | packages/core/src/sd-jwt.ts:44-165 | if, among the texts in existence, the key signed only issued credentials, everything any of them discloses belongs to one issued credential |
| SdJwtTheorems.ValidExactlyWhenAcceptable | packages/core/src/sd-jwt.ts:130-204 | valid if and only if the signature opens and the payload, disclosures, KB-JWT and clock meet the listed conditions |
| SdJwtTheorems.KeyBindingFitsOnePresentation | packages/core/src/sd-jwt.ts:188-193 | whatever else is valid with the same KB-JWT is the same string for the same audience and nonce, so no disclosure can be added, dropped or moved |
| SdJwtTheorems.HolderSignedWhatIsShown | packages/core/src/sd-jwt.ts:174-193 | if, among the texts in existence, the holder signed KB-JWTs for certain heads only, a valid presentation shows one of them, for its audience and nonce |
| SdJwtTheorems.HonestSignersMeetThePremises | packages/core/src/sd-jwt.ts:58-109 | both premises hold of honest keys whose signatures open: of all credentials the issuer signed and all KB-JWTs the holder signed |
| SdJwtTheorems.HonestPresentationMeetsThePremises | packages/core/src/sd-jwt.ts:44-111 | and in particular of a credential just issued and a presentation just made of it |
| SdJwtTheorems.IssuePresentVerify | packages/core/src/sd-jwt.ts:44-199 | issue, present, verify within the clock windows: valid if and only if the always-disclosed claims leave `_sd_alg` falsy or SHA-256, list the digest of every revealed entry (or have no `_sd`), and bind a JWK of the holder's key; then the disclosed claims are exactly the revealed ones |
| SdJwtTheorems.RevealedClaimsArriveIntact | packages/core/src/sd-jwt.ts:44-199 | with always-disclosed keys clear of the reserved ones: valid, exactly the revealed claims, and as issuer claims those given at issuance: `iss` the issuer, `vct` the type, `iat` the second of issue, each unless the spread replaces it |
| SdJwtTheorems.SpreadCanEraseTheCommitments | packages/core/src/sd-jwt.ts:54 | with an always-disclosed null `_sd`, no presentation that reveals anything verifies |
| SdJwtTheorems.IssuedTextReadsBack | packages/core/src/sd-jwt.ts:27-64 | the issued text holds one disclosure for each claim, with its own salt, name and value, and exactly their digests, in ascending order |
| SdJwtTheorems.ErrorsTellExactly | packages/core/src/sd-jwt.ts:130-204 | for any input, an error is reported exactly when it is so, when nothing throws; and a failed verification when something does |
| SdJwtTheorems.CommittedDigests | packages/core/src/sd-jwt.ts:141-157 | which digests a payload commits to, for an `_sd` of any type |
| Mdoc.IssueMdoc | packages/core/src/mdoc.ts:124-178 | the nested loops with one running digest id build the specified items, digests and security object |
| Mdoc.IssueNameSpaces | packages/core/src/mdoc.ts:129-146 | the outer loop builds every namespace and its digests, carrying the digest id across |
| Mdoc.IssueNamespace | packages/core/src/mdoc.ts:129-146 | the inner loop continues the numbering of the namespaces before |
| Mdoc.FilterNameSpaces | packages/core/src/mdoc.ts:196-205 | the filtering loop keeps the revealed items and drops namespaces with none |
| Mdoc.VerifyMdocPresentation | packages/core/src/mdoc.ts:245-329 | the accumulating verifier computes the specified outcome for every input string, including the refusal of oversized input |
| Mdoc.CheckNameSpaces | packages/core/src/mdoc.ts:282-297 | the digest loops collect what the specification says, up to the first item that does not decode |
| MdocTheorems.DigestIdsIndexTheItems | packages/core/src/mdoc.ts:125-146 | digest ids are unique across namespaces and index exactly the issued items |
| MdocTheorems.AcceptedExactlyWhenIssued | packages/core/src/mdoc.ts:286-296 | an item is accepted in a namespace if and only if the issuer put those very bytes in that namespace |
| MdocTheorems.OnlyIssuedItemsAreDisclosed | packages/core/src/mdoc.ts:262-328 | for any response carrying an issued security object: only issued claims are disclosed, and it is valid if and only if every item was issued in its namespace, the document type and validity window fit, and the device key signed this audience and nonce |
| MdocTheorems.HolderSignedForThisSession | packages/core/src/mdoc.ts:299-307 | if, among the signatures in existence, the device key signed for certain audiences and nonces only, a valid response answers one of them |
| MdocTheorems.HonestDeviceMeetsThePremise | packages/core/src/mdoc.ts:212-216 | that premise holds of an honest device whose signatures verify, for all the signatures it made |
| MdocTheorems.IssuePresentVerify | packages/core/src/mdoc.ts:124-328 | issue, present, verify: refused if and only if oversized; otherwise valid exactly in the validity window, disclosing the per-namespace restriction without empty namespaces |
| MdocVerdicts.IssuedTextReadsBack | packages/core/src/mdoc.ts:124-178 | the issued text holds every claim in order as an item with its running number and own salt, and a signed security object with the holder's key, type, window and status |
| MdocVerdicts.VerdictTellsExactly | packages/core/src/mdoc.ts:245-328 | for any response and any security object: an error is reported exactly when it is so, valid exactly without one, and a failed verification when something throws |
| MdocVerdicts.DisclosedExactly | packages/core/src/mdoc.ts:282-297 | whatever is disclosed was shown by an item whose digest the signed security object lists in that namespace, and all of that is disclosed |
| Dcql.CheckDcqlSatisfied | packages/core/src/dcql.ts:24-38 | the nested loops return, in request order, exactly the paths that lead to nothing or to null |
| Dcql.NothingMissingExactly | packages/core/src/dcql.ts:24-38 | nothing is missing if and only if every path leads to a value that is not null |
| Dcql.SatisfiedExactly | packages/core/src/dcql.ts:24-36 | a path is satisfied exactly when it leads, through members of objects, elements of arrays by decimal index, or their length, to a value that is not null |
| Dcql.MissingIsTold | packages/core/src/dcql.ts:24-38 | the missing list names exactly the unsatisfied paths, once each and in request order, their steps joined by dots |
| DcqlTheorems.SdJwtQueryComposition | apps/wallet/src/wallet.ts:206-212 | for any SD-JWT credential, query and override: the verifier's missing list is the requested paths withheld, absent or null, in order |
| DcqlTheorems.MdocQueryComposition | apps/wallet/src/wallet.ts:214-233 | the same for any mdoc and namespace-and-element paths |
| EndToEnd.PidReachesItsStatusEntry | apps/issuer/src/server.ts:331-339 | a PID issued under an index, presented and checked by the verifier, is valid and refers to exactly that index and list |
| EndToEnd.MdlReachesItsStatusEntry | apps/issuer/src/server.ts:324-328 | an mDL presentation of acceptable size is valid exactly inside the validity window, and then refers to exactly the index and list it was issued under |
| EndToEnd.PresentedReachesItsStatusEntry | apps/verifier/src/server.ts:193-226 | any presentation, by whomever, of a credential issued under an entry refers to that entry when it verifies |
| EndToEnd.VerifiedGoesToItsList | apps/verifier/src/server.ts:194-227 | its handler goes on to fetch that very list for that very index |
| EndToEnd.VerdictsUseVouchedKeys | apps/verifier/src/server.ts:190-220 | when the verifier's keys are its resolver's answers, every verdict rests on a P-256 key received from the metadata of the trusted issuer named, less than five minutes before the resolver returned it |
| StatusLists.StatusList.GetStatus | packages/core/src/status-list.ts:33-36 | refuses an index out of range, else reads the bit that JavaScript's shifts address |
| StatusLists.StatusList.SetStatus | packages/core/src/status-list.ts:38-48 | refuses an index out of range, else writes that one bit in place |
| StatusLists.SetThenGet | packages/core/src/status-list.ts:33-44 | a write changes the addressed bit and no other |
| StatusLists.ListIsSet | packages/core/src/status-list.ts:27-58 | after any sequence of `set` calls on up to 2^31 entries every index reads its membership, and the padding bits read VALID |
| StatusLists.ListIsSetExactlyUpToInt32 | packages/core/src/status-list.ts:33-44 | the list is the set if and only if it has at most 2^31 entries |
| StatusLists.ReadOfPublished | packages/core/src/status-list.ts:68-146 | reading a published token gives the bit for an addressable index and an error for any other |
| StatusLists.ReadStatusAgreesWithSet | packages/core/src/status-list.ts:99-146 | for every index the status read from a published list is membership in the abstract set |
| StatusLists.IndexPastInt32ReadsValid | packages/core/src/status-list.ts:136-145 | an index from 2^31 up to 2^32 is not refused and reads VALID |
| StatusLists.LowestBitFirst | packages/core/src/status-list.ts:33-44 | the entry of an index is bit `idx % 8`, lowest first, of byte `idx / 8` |
| StatusLists.WritesItsOwnEntry | packages/core/src/status-list.ts:38-44 | a write sets its own entry and leaves every other as it was |
| StatusLists.ReadsExactly | packages/core/src/status-list.ts:99-146 | what is read from any token at all: the entry, exactly when the token opens under the key, names the issuer and the list, carries one-bit entries and the index is in range; otherwise the error that says which of these fails |
| Revocation.RevokedCredentialsAreNeverValid | apps/verifier/src/server.ts:194-233 | once the admin endpoint accepted an index in any issuer run, no verdict of any verifier run on any presentation of a credential issued under it is valid, if the list fetched for it was built later; and if that list was read, the verdict reports the revocation |
| IssuedCredentials.RevokedAnswersAreNeverValid | apps/issuer/src/server.ts:322-361 | in one run of the issuer, a credential answered under an index and the accepted revocation of that index: no verdict of any verifier run on a presentation that carries that credential is valid, if the list fetched for it was built after the revocation |
| IssuedCredentials.CarriedIsPresented | apps/issuer/src/server.ts:324-339 | whatever carries an answered credential, when it verifies, refers to the index of that answer in the issuer's list |
| IssuedCredentials.AnsweredPidServesItsHolder | apps/issuer/src/server.ts:74-85 | the PID answered under an index, presented for any query, verifies, discloses exactly what was asked for and let through, names its issuer to the verifier, and refers to that index |
| IssuedCredentials.AnsweredMdlServesItsHolder | apps/issuer/src/server.ts:87-99 | the same for the mDL: it verifies exactly in the 365 days from its issue, unless the response is past 1 MiB |
| IssuedCredentials.CarriedPidNamesItsIssuer | apps/verifier/src/server.ts:216-217 | whatever carries an answered PID names its issuer to the verifier, and no one else |
| IssuedCredentials.AnsweredPidGoesToItsIssuer | apps/verifier/src/server.ts:162-217 | so a live session that takes it up asks for the key of exactly that issuer |
| IssuedCredentials.AnsweredPidIsStored | apps/wallet/src/wallet.ts:125-134 | the wallet stores the answered PID under its type |
| IssuedCredentials.AnsweredMdlIsStored | apps/wallet/src/wallet.ts:125-134 | the wallet stores the answered mDL under its document type |
| HonestFlow.PidIsPresented | apps/wallet/src/wallet.ts:137-212 | against an honest verifier and network, a wallet whose first credential of a requested type is an answered PID posts a token to the response URI that checks out for that request's nonce, disclosing exactly what was asked for and let through, and returns the verifier's answer |
| HonestFlow.MdlIsPresented | apps/wallet/src/wallet.ts:137-233 | the same for an answered mDL in its year of validity |
| HonestFlow.CheckedIsAccepted | apps/verifier/src/server.ts:190-245 | a token that checks out, for an index not revoked before its list was published, ends in a verdict without errors but for the missing paths |
| HonestFlow.PidIsAccepted | apps/verifier/src/server.ts:125-245 | both together: from the wallet's `present` to the verdict, in any run of the verifier that serves its handler |
| HonestFlow.RequestIsResolved | apps/wallet/src/wallet.ts:173-204 | the request of an honest verifier is resolved with two requests, for 120 s from its signature |
| Revocation.RevokedCredentialsAreRejected | apps/verifier/src/server.ts:223-233 | the handler that reads a revoked index from a later list reports the revocation, or, when the list has expired, gives no verdict |
| Revocation.RevokedReadsInvalid | packages/core/src/status-list.ts:136-145 | the bit read from a list built after the revocation is INVALID |
| Revocation.UnrevokedReadsValid | packages/core/src/status-list.ts:136-145 | an index never revoked before the list was built reads VALID |
| RequestObject.VerifiedRequestsAreBound | packages/core/src/request-object.ts:64-106 | a request object is accepted if and only if the key registered for the client it names opens it and it is addressed to this wallet |
| RequestObject.SignedRequestsExpire | packages/core/src/request-object.ts:21-28 | a request signed by the verifier is accepted for 120 s and no longer |
| RequestObject.RequestsLapseExactlyWithExpiry | packages/core/src/request-object.ts:90-102 | a signed request is accepted at arbitrarily late times if and only if it carries no `exp`, and its `iat` and `nbf`, if any, are numbers |
| RequestObject.AcceptedWhileTimeClaimsHold | packages/core/src/request-object.ts:64-106 | any claims signed by the registered key for this wallet are accepted if and only if the time claims they carry hold |
| RequestObject.RefusedExactly | packages/core/src/request-object.ts:70-106 | which refusal any request object gets: access denied for a client without a key, invalid for everything else |
| Wallet.VpTokenStaysWithTheVerifiedClient | apps/wallet/src/wallet.ts:137-204 | against any servers, every request that carries the body goes to the origin of the client named in the request object that was fetched, which the first key published at a configured origin equal to the client's opens; the body is a token that shows the first stored credential which that very request asks for, and no more of it than is asked for and let through; at most 18 requests, none with a credential header |
| Wallet.Wallet.Present | apps/wallet/src/wallet.ts:137-160 | the requests of the call are confined so; an answer comes back only if the presentation was posted |
| Wallet.Wallet.FetchCredential | apps/wallet/src/wallet.ts:113-134 | appends exactly the credential that the reply to this one fetch holds, or leaves the store as it was; the access token and the proof go to the origin of the credential endpoint only |
| Wallet.GroupByNamespace | apps/wallet/src/wallet.ts:219-225 | the grouping loop builds the specified reveal map |
| Wallet.GroupedExactly | apps/wallet/src/wallet.ts:219-225 | an element is revealed in a namespace if and only if it was requested there and the override lets it through |
| Wallet.SearchFindsTheFirst | apps/wallet/src/wallet.ts:206-217 | the search finds the first stored credential of a requested type or document type, and none when there is none |
| Wallet.BuiltIsShown | apps/wallet/src/wallet.ts:206-233 | the token built shows that credential: its JWS or issuer signature, exactly the disclosures or items asked for and let through, and a signature of the wallet's key over the request's client and nonce |
| Wallet.UntrustedStopsThere | apps/wallet/src/wallet.ts:173-194 | without a readable signed request of a client whose origin is configured, one GET is all that is sent |
| Wallet.FoundIsTrusted | apps/wallet/src/wallet.ts:188-194 | the origin found for a client is configured and equal to the client's |
| SafeFetch.RunFetch | packages/core/src/http.ts:122-168 | the redirect loop makes exactly the specified requests and ends with the specified outcome |
| SafeFetch.ReadCapped | packages/core/src/http.ts:174-195 | returns the whole body if and only if it is within 1 MiB, and never buffers more |
| SafeFetch.SecretsStayWithTheFirstOrigin | packages/core/src/http.ts:122-168 | at most six requests, each past the guard; one that still carries the body or a credential header went to the first origin, like all before it |
| SafeFetch.StrippedOnceStrippedForGood | packages/core/src/http.ts:145-160 | after a change of origin no later request carries the body or a credential header, even back on the first origin |
| SafeFetch.HopsOutcome | packages/core/src/http.ts:127-167 | a returned response is the 2xx answer to the last request; giving up on redirects takes exactly six |
| SafeFetch.NoPrivateTarget | packages/core/src/http.ts:85-109 | no request goes to a listed private IPv4 address, in the dotted or either IPv4-mapped form, or to a canonical local IPv6 literal |
| SafeFetch.OnlyHttpsLeavesLoopback | packages/core/src/http.ts:85-109 | every request goes to a URL that parses, over HTTPS unless the host is literally localhost, 127.0.0.1 or [::1] |
| SafeFetch.AllowedIsRequested | packages/core/src/http.ts:85-109 | the other side: loopback hosts, and over HTTPS names that begin with a letter and not like a local literal, dotted addresses outside the listed blocks, and IPv6 literals with a four-digit first group outside the local ranges, are requested as given |
| SafeFetch.LogIsAChain | packages/core/src/http.ts:122-168 | the log is a chain of redirects from the URL and options given, each hop resolved against the one before and carrying exactly what it may; the last answer decides the outcome |
| Addresses.EverySpellingAgrees | packages/core/src/http.ts:32-64 | every 32-bit address gets one verdict in its dotted and its IPv4-mapped forms: membership in the four listed blocks |
| Addresses.LocalIPv6IsPrivate | packages/core/src/http.ts:65-68 | every canonical literal in fc00::/7 or fe80::/10 is rejected |
| Addresses.NamesAreRefusedExactly | packages/core/src/http.ts:26-70 | of the names that begin with a letter exactly those are refused that begin like a local IPv6 literal |
| Addresses.LongGroupsAreRefusedExactly | packages/core/src/http.ts:65-70 | of the literals with a four-digit first group exactly those in fc00::/7 and fe80::/10 are refused |
| Trust.ReturnedKeysAreTrustedAndFresh | packages/core/src/trust.ts:26-54 | whatever the interleaving, a key is returned only for a listed issuer, is P-256, and came in the answer to a fetch of that issuer's own metadata URL less than five minutes before |
| Trust.AnsweredExactly | packages/core/src/trust.ts:30-53 | every answer of every run, from the log: 403 for an issuer not listed, the key last received for five minutes, then a fetch of the metadata URL; 502, 400 or the first key of the JWKS from what came back |
| Trust.StaticTrustResolver.Resolve | packages/core/src/trust.ts:30-39 | keeps the account of every key it holds; a key it returns from the cache is so vouched for; an unlisted issuer gets neither a key nor a fetch |
| Trust.StaticTrustResolver.Receive | packages/core/src/trust.ts:37-53 | keeps that account; a key it returns answers the fetch its request was suspended on, and is what enters the cache; otherwise the cache is unchanged |
| SignatureDer.DerToJoseWalk | mobile/android/app/src/main/java/fi/digilompakko/wallet/Jose.kt:88-98 | the index walk reads the specified two INTEGERs, or fails where an access or check throws |
| SignatureDer.JoseToDerWrite | mobile/android/app/src/main/java/fi/digilompakko/wallet/Jose.kt:101-110 | the stream writes compute the specified octets |
| SignatureDer.JoseRoundTrip | mobile/android/app/src/main/java/fi/digilompakko/wallet/Jose.kt:88-110 | every 64-byte signature survives the trip through DER |
| SignatureDer.DerRoundTrip | mobile/android/app/src/main/java/fi/digilompakko/wallet/Jose.kt:88-110 | an accepted encoding survives the trip through raw form if and only if it is canonical |
| SignatureDer.JoseToDerIsCanonical | mobile/android/app/src/main/java/fi/digilompakko/wallet/Jose.kt:101-110 | the output has minimal non-negative INTEGERs (X.690 section 8.3) and a sequence length below 128 |
| SignatureDer.CanonicalIsAccepted | mobile/android/app/src/main/java/fi/digilompakko/wallet/Jose.kt:88-98 | every canonical encoding is accepted, gives 64 bytes and comes back |
| SignatureDer.NegativeIntegerIsMisread | mobile/android/app/src/main/java/fi/digilompakko/wallet/Jose.kt:93-97 | the encoding of r = -1, s = 1 is accepted and comes back with r = 255 |
| SignatureDer.AcceptedExactly | mobile/android/app/src/main/java/fi/digilompakko/wallet/Jose.kt:88-98 | exactly these inputs are accepted: a SEQUENCE tag, any length octet, two INTEGERs of 1 to 127 octets, anything after |
| SignatureDer.AcceptedGives | mobile/android/app/src/main/java/fi/digilompakko/wallet/Jose.kt:88-98 | they give r and then s, each in 32 bytes that hold its value, unless it is negative or too large |
| SignatureDer.WrittenExactly | mobile/android/app/src/main/java/fi/digilompakko/wallet/Jose.kt:101-110 | refused exactly below 64 bytes; otherwise the values of the first two times 32 bytes, as minimal INTEGERs with lengths that add up |
| SignatureDer.To32Bytes | mobile/android/app/src/main/java/fi/digilompakko/wallet/SecureKeyStore.kt:96-106 | the array copies compute the specified 32 bytes |
| SignatureDer.Fit32IsModulo | mobile/android/app/src/main/java/fi/digilompakko/wallet/SecureKeyStore.kt:96-106 | the result is the big-endian form of the value modulo 2^256 if and only if the value is not a negative number that fits in fewer than 32 bytes |

## Left out

- The internals of `jose`, `cbor-x`, zlib, `node:crypto` and the WHATWG URL parser: functions with the laws named above. JSON objects are maps without prototype keys, and numbers are integers.
- CBOR structure: a decoder returns typed records whose fields may be absent; a field of the wrong type counts as absent, or as a decoding failure where the program would throw.
- Credential contents in the issuer's machine: an answer is its index and configuration; `IssuedCredentials` says which texts that can be. Holder key, salts and second of issue are not tied to the run.
- Verifier sweep transparency: not claimed, because a swept session answers 404 where an expired one answers 400, and polling ignores the lifetime.
- `vct_values` and document types at the verifier: the code does not check them.
- Clock: `verifyPresentation` and `verifyMdocPresentation` read it several times; the model reads it once per verification. JOSE's clock tolerance is zero.
- Random identifiers are arbitrary non-empty inputs; uniqueness is a premise only of `ProvenanceIsUnique`, `NonceVerifiedAtMostOnce`, `ResultReadAtMostOnce`, `TrailIsUnique` and `PollAnsweredExactly`; the lemmas about an honest client ask that nobody else names its code, token or session.
- PKCE compares digests as character sequences; the program compares their UTF-8 bytes.
- A revocation index that is not an integer, and an issuer configuration that is not a string, are each one error case.
- A status index that is not a number counts as 0, as an absent one does in JavaScript's shifts.
- A request object whose `client_id` or `response_uri` is not a string: the model stops earlier than the program does, before any body is sent.
- Response bodies on their way to the JSON parser are capped in characters in `Wallet`; the byte-counting reader is `SafeFetch.ReadCapped`. Timeouts and DNS are not modelled.
- Express routing, admin authorization, error texts, logging, environment variables, user interfaces and platform key stores.
- `RelyingPartyRegistry`, `SoftwareKeyStore`, `acceptOffer`, `acceptViaAuthCode`, and the Swift and Kotlin copies of the presentation builders.
