# Verification model of the agent identity toolkit

The repository is a set of small stateful protocol engines for AI-agent identity: a credential broker
with an approval workflow and a payment gateway on top, a reference table shared between Go and
JavaScript, caches and replay stores, an agent-scoped memory store, token chains, selective disclosure,
and an HTTP gateway with revocation. These files model what those engines do to their state and prove
what stays true over every run.

`dafny verify dfyconfig.toml` checks everything. One module per file:

| module | models |
|---|---|
| `Policy`, `PaymentScope` | approval tiers: shell globs, first match, the default rules; the scope that pays for a resource |
| `Broker` | decision point, delivery point, audit log and payment gateway as one interleaved state machine |
| `BrokerProvenance`, `BrokerExclusion`, `BrokerReplay` | three invariants of that machine, each kept by every step |
| `BrokerTheorems` | what follows for every schedule |
| `BrokerObjects` | the broker's objects and methods, each proved to do exactly the sections of the machine |
| `LinearMemory`, `ValueTable` | the WebAssembly glue: words in memory, the argument block, the reference-counted value table |
| `JtiStore` | the replay store that forgets, against the record of everything ever accepted |
| `Federation` | trust resolution, with and without its cache |
| `HttpFederation` | the resolver that fetches: a statement per hint, when the order of hints matters, how long its cache is right |
| `Memory` | the memory store: audit replay, isolation, tamper evidence |
| `Base64Url`, `Keys` | base64url, JWK coordinates, thumbprint preimages, raw signatures |
| `Chain`, `Scope`, `SdJwt` | delegation chains, scope narrowing, selective disclosure |
| `Gateway` | the middleware over replay store and revoked set, and the event receiver |
| `FeedCursor` | the feed watcher's remembered guid over successive runs |
| `GatewayFederation` | the gateway with its federation resolver: what a federated leaf token rests on |
| `SdJwtWitness` | a codec that satisfies what the disclosure results ask of the JSON codec |
| `Wrappers`, `Bytes`, `Sequences`, `Strings`, `Jose` | Option and Result, bytes, splitting and joining, keys, digests and token time windows |

## How things are modelled

- A signed token is a value that names its signer. A broker client can present a token it was handed, or one signed
  with a key other than the two broker keys. Nobody forges.
- SHA-256 is a datatype constructor, so it is injective. JSON, JWT decoding and curve membership are
  parameters; a lemma that needs the JSON codec to round-trip says so.
- Time is an integer clock reading passed into each step. A gateway request has one reading for each check that
  takes its own, and another for the replay store. A token is accepted iff now < exp
  (section 4.1.4 of RFC 7519). Replays and runs do not assume a forward clock unless the lemma says so.
- Fresh ids and jtis are inputs. A request id must be one not used before; jtis need not be.
- In `Broker` a call is cut into sections at the points where the source takes or releases a lock.
  `Frame` is the program counter with its locals, and the sections of any number of calls interleave
  freely. A token becomes known to clients only when the call that made it returns, so a decision
  cannot be minted before its approval is on record.
- What the source changes in place is a class here, and every method is tied to a function of the old
  state, about which the lemmas are proved.

## Where the code and its description part

- The comment on the admin rule promises multi-factor approval to every admin identity; a workload one
  path segment deeper is not matched (`Policy.NestedAdminIsNotMfa`, exact set in `Policy.DefaultMfaExactly`).
- The comment on the micro-payment rule says up to fifty credits; the rule's scope is exactly fifty, and
  smaller amounts need a human (`Policy.TenCreditsNeedAHuman`, exact set in `Policy.DefaultAutoExactly`).
- A blank, non-empty scope request is granted the empty scope, and asking for that again inherits
  everything that was granted (`Scope.BlankRequestRegainsAll`, exact condition in
  `Scope.ResolveIdempotentExactly`).
- The replay store's safety note says that a token too old for the store has already failed its expiry check.
  The parser and the store read the clock separately: parsed just before its expiry and recorded just after
  it, a proof token is forwarded a second time, sequentially and on a forward clock
  (`Gateway.StraddledExpiryForwardsTwice`, at the store `JtiStore.RecordedPastExpiryAcceptsTwice`). On a forward
  clock that is the only way: a proof presented again is rejected as a replay iff it is recorded by its
  expiry (`Gateway.ReplayRejectedExactly`, `JtiStore.ForwardClockExactly`).
- The store also reads the clock before it takes its lock, so concurrent readings can arrive out of order, and
  a token recorded in time each time can get in twice (`JtiStore.LateReadingAcceptsTwice`). For arbitrary
  readings a jti is accepted again iff some reading since its last use was past its expiry
  (`JtiStore.AnyClockExactly`; with jtis of several expiries, `JtiStore.AcceptedExactly`).
- The integrity preimage can collide for subjects with NUL (`Memory.NulInSubjectCollides`). Two subjects can
  collide iff one, followed by NUL, begins the other (`Memory.CollisionExactly`).
- A validator filed under a key other than its issuer can pass leaf tokens but no chain hop
  (`Chain.MisfiledValidatorDiffers`); an alias beside the right entry is harmless (`Chain.AliasIsHarmless`). The
  two checks agree on all tokens iff every validator is the one found under its own issuer
  (`Chain.LookupsAgreeExactly`).
- The certificate binding is described as one to the first URI name; the code accepts any URI name of the
  certificate (`Gateway.LaterNameBinds`). A certificate binds as described, for every agent, iff it holds no
  URI name besides its first (`Gateway.FirstNameExactly`).
- The two resolvers differ: the in-memory one stops with an error where the fetching one goes on to the next hint
  (`HttpFederation.AgreesWithInMemory` says where they agree), and only the former's cache is transparent
  (`HttpFederation.CacheCanDiffer`, exactly when in `HttpFederation.CachedExactly`).
- An asset that contains a colon can never be paid for (`PaymentScope.ColonAssetIsUnpayable`,
  `PaymentScope.CheckScopeExactly`).

## Model

| member | source | states |
|---|---|---|
| Policy.FirstMatch | pkg/cb4a/pdp.go:137-144 | the tier of the first rule that applies, and human approval when none does |
| Policy.UncoveredNeedsAHuman | pkg/cb4a/pdp.go:137-144 | whatever the rule set, a request no rule covers needs a human |
| Policy.FirstRuleDecides | pkg/cb4a/pdp.go:137-144 | whatever the rule set, the first rule that applies decides |
| Policy.PrefixStarSuffix | pkg/cb4a/pdp.go:42-48 | a glob with one star matches exactly the strings with that head and that tail and no slash between them |
| Policy.TwoStars | pkg/cb4a/pdp.go:42-48 | a glob with two stars matches exactly the strings with two slash-free runs around the middle literal |
| Policy.DefaultAutoExactly | pkg/cb4a/pdp.go:52-71 | for every agent and scope: approved without a human iff the agent is neither admin nor CI and the scope is the fifty-credit payment or a slash-free read scope outside payment |
| Policy.DefaultMfaExactly | pkg/cb4a/pdp.go:54-55 | the multi-factor tier is given to exactly the agents of the admin glob, whatever the scope |
| Policy.TenCreditsNeedAHuman | pkg/cb4a/pdp.go:61-64 | a ten-credit payment scope gets the human tier, whatever the comment says about smaller amounts |
| Policy.NestedAdminIsNotMfa | pkg/cb4a/pdp.go:54-55 | an admin identity one path segment deeper falls through to ordinary human approval |
| Policy.RedundantRule | pkg/cb4a/pdp.go:137-144 | a rule that applies only where an earlier one does can be dropped from any rule set without changing any tier |
| Policy.ShadowedRuleIsRedundant | pkg/cb4a/pdp.go:64-69 | the second read rule of the default set is shadowed: dropping it changes no decision |
| PaymentScope.CheckScopeExactly | pkg/x402/gateway.go:120-132 | the scope check accepts exactly payment:asset:amount, and nothing at all for an asset with a colon |
| PaymentScope.ColonAssetIsUnpayable | pkg/x402/gateway.go:120-132 | an asset with a colon is not bought even by the scope that spells its own price |
| BrokerProvenance.StepKeepsBacked | pkg/cb4a/pdp.go:149-282 | every section of every call keeps: each audit entry has its cause earlier in the log, and each token held or in use is backed by the entry that granted it |
| BrokerProvenance.RunFromBacked | pkg/cb4a/cdp.go:135-377 | that invariant holds after any schedule |
| BrokerExclusion.StepKeepsExclusive | pkg/cb4a/pdp.go:204-282 | every section keeps: an id is resolved at most once, one call at most is about to resolve it, and the parked state says which way |
| BrokerExclusion.RunFromExclusive | pkg/cb4a/pdp.go:204-282 | that invariant holds after any schedule |
| BrokerReplay.StepKeepsReplay | pkg/cb4a/cdp.go:342-377 | every section keeps: recorded jtis number the api_call entries plus the calls about to write one, and no jti is logged, held or paid with twice |
| BrokerReplay.RunFromReplay | pkg/cb4a/cdp.go:342-377 | both hold after any schedule |
| BrokerTheorems.EveryCallHasItsCause | pkg/cb4a/cdp.go:267-377 | in every interleaving an api_call entry is preceded, in order, by evaluation, approval and mint of one grant with its request id, agent and scope |
| BrokerTheorems.MintNeedsApproval | pkg/cb4a/cdp.go:135-209 | a minted tier is the policy's tier for that agent and scope; outside the automatic tier the parked request is in the approved state and a named approver's entry comes first |
| BrokerTheorems.CallIsSenderConstrained | pkg/cb4a/cdp.go:267-377 | in every interleaving a call about to be logged proved possession of the key its credential was bound to when minted |
| BrokerTheorems.ResolvedAtMostOnce | pkg/cb4a/pdp.go:204-282 | no request id is both approved and denied, and none is approved twice |
| BrokerTheorems.JtisAreConserved | pkg/cb4a/cdp.go:342-377 | recorded jtis = api_call entries + calls that took a jti and have yet to log |
| BrokerTheorems.ProofsAreSpentOnce | pkg/x402/gateway.go:66-116 | no two granted payments and no two api_call entries rest on the same DPoP jti |
| BrokerTheorems.PaymentTier | pkg/cb4a/pdp.go:52-71 | under the default rules the only payment scope approved automatically is AGENT_CREDIT:50 |
| BrokerTheorems.PaymentHasItsCall | pkg/x402/gateway.go:66-116 | every granted payment has an api_call entry with its jti, subject and resource, after the mint of a credential bound to the key that signed its proof |
| BrokerTheorems.PaymentTracesToApproval | pkg/x402/gateway.go:66-132 | end to end: every payment granted at another price is for exactly that price, goes back to a parked request a person approved, was proved with the key bound at the mint, and has its own api_call entry after it |
| BrokerObjects.AloneIsASchedule | pkg/cb4a/pdp.go:149-282 | a whole call made without interruption, from its opening section on, is one of the schedules of the state machine |
| BrokerObjects.OneByOneIsASchedule | pkg/cb4a/cdp.go:135-377 | so is any sequence of such calls: what holds of every schedule holds after any sequence of method calls |
| BrokerObjects.AloneLeaves | pkg/cb4a/cdp.go:101-112 | decision-point calls leave the recorded jtis alone, delivery-point calls the parked requests |
| BrokerObjects.EvaluateAlone | pkg/cb4a/pdp.go:149-200 | an uninterrupted evaluation logs the tier and then either logs the approval and hands out a decision, or parks the request |
| BrokerObjects.ApproveAlone | pkg/cb4a/pdp.go:204-236 | an uninterrupted approval moves the parked request, logs the approver and hands out a decision for the request's own envelope and tier |
| BrokerObjects.DenyAlone | pkg/cb4a/pdp.go:255-282 | an uninterrupted denial moves the parked request and logs it as a failure |
| BrokerObjects.MintAlone | pkg/cb4a/cdp.go:135-209 | an uninterrupted mint logs the grant with the ephemeral key's thumbprint and hands out a token bound to it |
| BrokerObjects.CallAlone | pkg/cb4a/cdp.go:267-377 | an uninterrupted call changes nothing when a check fails, logs a replay when the jti is taken, else takes the jti and logs the call |
| BrokerObjects.PayAlone | pkg/x402/gateway.go:66-116 | a payment spends and logs what the plain call would, and is granted iff the agent token also checks out for the credential's agent |
| BrokerObjects.PayBeginsExactly | pkg/x402/gateway.go:66-95 | which payments reach the delivery point: all three parts, a credential signed with the gateway's key and open, and the price as its scope |
| BrokerObjects.PaymentGrantedExactly | pkg/x402/gateway.go:66-116 | a payment with a credential of this delivery point and a proof made for it is granted iff the credential is for the price, both last, the proof is new and the agent token is valid and of the credential's agent |
| BrokerObjects.ApprovedRequestIsServed | pkg/cb4a/cdp.go:135-377 | evaluate, approve, mint and call in turn, each within the lifetime of the token before, add exactly the four entries of the story to the log |
| BrokerObjects.AuditLog.Append | pkg/cb4a/audit.go:51-59 | the log grows by exactly the entry, at the end |
| BrokerObjects.AuditLog.Entries | pkg/cb4a/audit.go:62-68 | a fresh snapshot equal to the log |
| BrokerObjects.AuditLog.Len | pkg/cb4a/audit.go:71-75 | the number of entries |
| BrokerObjects.InMemoryPdp.Evaluate | pkg/cb4a/pdp.go:149-200 | as the state machine's call; in the automatic tier a decision with every claim as issued and two entries, in any other the parked request and one entry |
| BrokerObjects.InMemoryPdp.Approve | pkg/cb4a/pdp.go:204-236 | as the state machine's call; an error exactly for an unknown or already resolved id, else a decision with every claim as issued, the entry naming the approver, and the request approved |
| BrokerObjects.InMemoryPdp.ApproveWithPasskey | pkg/cb4a/pdp.go:244-252 | as Approve with the credential's id as approver; a bad assertion changes nothing |
| BrokerObjects.InMemoryPdp.Deny | pkg/cb4a/pdp.go:255-282 | as the state machine's call; an error exactly for an unknown or already resolved id, else the failure entry and the request denied |
| BrokerObjects.Cdp.Mint | pkg/cb4a/cdp.go:135-209 | as the state machine's call; success iff type, signer, window, approval and vault are right, and then a token with every claim as granted, bound to the ephemeral key, and its entry |
| BrokerObjects.Cdp.SimulateApiCall | pkg/cb4a/cdp.go:267-377 | as the state machine's call; success iff token and proof pass every check and the jti is new; the entry names the URI, the method and the grant |
| BrokerObjects.PaymentGateway.Verify | pkg/x402/gateway.go:66-116 | as the state machine's call; a result iff the credential is the CDP's and for exactly the price, the resource-server check passes, and the agent token is valid and of the credential's agent |
| LinearMemory.SetInt64 | demo/wasm_exec.js:119-122 | low and high words of the number are in memory, nothing else changes |
| LinearMemory.GetInt64 | demo/wasm_exec.js:128-132 | the number read is low + signed high * 2^32 |
| LinearMemory.LowByteFirst | demo/wasm_exec.js:119-132 | words are stored least significant byte first |
| LinearMemory.Int64RoundTrip | demo/wasm_exec.js:119-132 | what setInt64 stores getInt64 reads back, for every integer of magnitude at most 2^53 |
| LinearMemory.StrPtr | demo/wasm_exec.js:509-518 | the terminated string is in memory at the offset iff it fits, nothing else changes, and the next offset is rounded up to eight |
| LinearMemory.WriteStrings | demo/wasm_exec.js:507-532 | every string is in memory where its pointer says, eight-aligned, in order and apart |
| LinearMemory.WriteArgs | demo/wasm_exec.js:507-546 | success exactly when the whole block ends below the data segment; then strings and pointer table are all in place |
| LinearMemory.TableExactly | demo/wasm_exec.js:520-539 | the table holds the arguments' pointers, a null, the environment's pointers and a null, in this order |
| ValueTable.InitialValid | demo/wasm_exec.js:485-503 | the initial tables satisfy the allocator's invariant with no reference held |
| ValueTable.AddKeepsValid | demo/wasm_exec.js:165-175 | storing a boxed value keeps the invariant, counts one more reference, and leaves the value live under the id it got |
| ValueTable.ReleaseKeepsValid | demo/wasm_exec.js:313-323 | finalizing a live reference keeps the invariant and counts one reference less |
| ValueTable.InUseIsHolding | demo/wasm_exec.js:160-195 | the table entries in use are as many as the different values Go holds references to |
| ValueTable.AnyRun | demo/wasm_exec.js:160-195 | after any run: presets in place, ids the inverse of the live values, counts equal references held, pool duplicate-free, table as long as the presets plus the most different values held at once |
| ValueTable.StoreThenLoad | demo/wasm_exec.js:134-195 | loading after storing gives the value back for every JavaScript value, negative zero as zero |
| ValueTable.HeldReferenceReadsBack | demo/wasm_exec.js:160-195 | while Go holds a reference to a value, its id and table entry stay the same through any run |
| ValueTable.BoxedReferenceReadsBack | demo/wasm_exec.js:134-195 | the two words written for a value go on reading as it until its last reference is finalized |
| ValueTable.Go.constructor | demo/wasm_exec.js:485-503 | a new instance holds the preset tables and satisfies the invariant |
| ValueTable.Go.Intern | demo/wasm_exec.js:165-175 | the table after interning is the specified one: found id, reused id, or new id at the end |
| ValueTable.Go.StoreValue | demo/wasm_exec.js:147-195 | the high word says the kind of the value (object, string, symbol, function or other) or is the number's, the low word is the id or the number's; the table is the specified one and stays valid, and no other memory changes |
| ValueTable.BoxSays | demo/wasm_exec.js:147-195 | the two words for every kind of value, by their bits |
| ValueTable.PresetIds | demo/wasm_exec.js:485-503 | zero, null, true, false, the global object and Go itself have the ids 1 to 6, and id 0 is NaN |
| ValueTable.FreedIsReusedFirst | demo/wasm_exec.js:165-171 | the id freed last is the first to be used again |
| ValueTable.DoubleWords | demo/wasm_exec.js:134-145 | which words are a NaN and which are a zero, by the fields of the format |
| ValueTable.Go.LoadValue | demo/wasm_exec.js:134-145 | the value is what the two words at the address stand for |
| ValueTable.Go.FinalizeRef | demo/wasm_exec.js:313-323 | one reference less; the last one frees the id, clears the entry and pools the id |
| JtiStore.InMemoryJtiStore.Record | pkg/identity/store.go:47-61 | the sweep, check and insert leave exactly the unexpired entries and the new one |
| JtiStore.SeenExactly | pkg/identity/store.go:47-61 | after any calls the store holds exactly the accepted entries no clock reading since has outlived, under their own expiry |
| JtiStore.AcceptedExactly | pkg/identity/store.go:47-61 | a call is accepted iff no earlier accepted entry with its jti has stayed live through every reading since |
| JtiStore.ForwardClockExactly | pkg/identity/store.go:47-61 | on a forward clock, with a jti fixing its exp: accepted iff never seen before or recorded past the expiry |
| JtiStore.AgreesWithFullHistory | pkg/identity/store.go:32-61 | under the same assumptions the store agrees with one that never forgets exactly where the jti is new or recorded by its expiry |
| JtiStore.AnyClockExactly | pkg/identity/store.go:47-61 | for arbitrary readings, with a jti fixing its exp: accepted again iff some reading since the last use was past the expiry |
| JtiStore.RecordedPastExpiryAcceptsTwice | pkg/identity/store.go:32-61 | recorded just after its expiry, a token gets in twice on a forward clock |
| JtiStore.LateReadingAcceptsTwice | pkg/identity/store.go:48-51 | a clock reading taken early and used late lets a token in twice although each of its uses is recorded in time |
| JtiStore.SizeBound | pkg/identity/store.go:47-61 | with exp at most TTL ahead the store is no larger than the acceptances of the last TTL |
| Federation.HintLoop | pkg/federation/resolver.go:103-118 | the hint loop succeeds iff some hint is an anchor that vouches, and its result does not depend on which |
| Federation.ResolvedExactly | pkg/federation/resolver.go:77-141 | resolution succeeds iff a named anchor signed an open statement about the entity whose first key signed the open configuration; keys are the statement's, expiry the earlier of both |
| Federation.FailuresExactly | pkg/federation/resolver.go:77-141 | which failure means which: no configuration, no statement, a bad configuration, no trusted authority, no keys, a bad key, a configuration not signed with it |
| Federation.RegisteredIsResolved | pkg/federation/resolver.go:61-141 | an entity is resolved from the configuration and statement registered for it |
| Federation.HintsAsASet | pkg/federation/resolver.go:103-118 | order and repetition of authority hints do not matter |
| Federation.ValidUntilExpiry | pkg/federation/resolver.go:77-141 | a resolution stays the same until its expiry and fails from then on |
| Federation.PublicKey | pkg/federation/resolver.go:23-31 | the first key of the set that parses |
| Federation.PublicKeyVerifies | pkg/federation/resolver.go:22-31 | the key handed out is the one that verified the entity configuration |
| Federation.InMemoryResolver.RegisterEntityConfig | pkg/federation/resolver.go:61-66 | the configuration is stored and the cached entity dropped |
| Federation.InMemoryResolver.RegisterSubordinateStatement | pkg/federation/resolver.go:69-74 | the statement is stored and the cached entity dropped |
| Federation.InMemoryResolver.Resolve | pkg/federation/resolver.go:77-141 | a fresh cache entry is returned, anything else is resolved anew; the cache then holds the result or nothing |
| Federation.CacheIsTransparent | pkg/federation/resolver.go:61-141 | over every sequential run with a forward clock the cached resolver answers as one without a cache |
| HttpFederation.HttpResolver.Resolve | pkg/federation/resolver.go:162-215 | a fresh cache entry is returned, anything else resolved anew from what is fetched; the cache then holds the result or nothing |
| HttpFederation.HttpResolver.TryHints | pkg/federation/resolver.go:181-213 | the loop passes over every hint that fails a check and returns what the first other leads to |
| HttpFederation.AnswerExactly | pkg/federation/resolver.go:162-215 | over any calls: an entity handed out has not expired, and is what fetching gives now or gave to an earlier call whose result has not expired for any call since |
| HttpFederation.KeptIsAnswered | pkg/federation/resolver.go:162-170 | while the result of an earlier call lasts, later calls for the entity are answered with it |
| HttpFederation.ExpiredIsFetched | pkg/federation/resolver.go:162-170 | once every earlier result has expired, the answer is what fetching gives now |
| HttpFederation.AnswerIsFreshExactly | pkg/federation/resolver.go:162-215 | with nothing changed at the authorities, a kept answer equals a fresh resolution iff the hints before its own still lead nowhere or the first that has come to work leads to it too |
| HttpFederation.FirstWorkingExactly | pkg/federation/resolver.go:181-213 | a resolution succeeds iff some hint works, and its result is that of the first that does |
| HttpFederation.SuccessByHintSet | pkg/federation/resolver.go:181-213 | whether it succeeds depends on the set of hints only |
| HttpFederation.OrderIrrelevantExactly | pkg/federation/resolver.go:181-213 | no reordering of the hints changes the result iff all hints that work lead to the same keys and expiry |
| HttpFederation.OrderCanMatter | pkg/federation/resolver.go:181-213 | two anchors that vouch for different times: the order of the hints decides the expiry |
| HttpFederation.FetchedIsAnchored | pkg/federation/resolver.go:181-213 | a named anchor vouches for the key handed out, and that key signed the configuration |
| HttpFederation.AgreesWithInMemory | pkg/federation/resolver.go:77-215 | where every anchor serves one statement both resolvers give the same results |
| HttpFederation.CachedExactly | pkg/federation/resolver.go:162-170 | with nothing changed at the authorities, a cached entity stays resolvable while it is served, and is what a fresh resolution gives iff the hints before its own still lead nowhere or the first that has come to work leads to it too |
| HttpFederation.CachedWithoutNbf | pkg/federation/resolver.go:162-170 | with no nbf still to come among the statements, the cached entity is the fresh one until it expires |
| HttpFederation.CacheCanDiffer | pkg/federation/resolver.go:162-170 | a statement that becomes valid in between makes a fresh resolution differ from the cached one |
| Memory.PreimageInjective | pkg/memory/memory.go:53-57 | equal preimages mean equal subject, content and time when subject and time hold no NUL, whatever the contents hold |
| Memory.CollisionExactly | pkg/memory/memory.go:53-57 | for two different subjects some contents, under times without NUL, give one preimage iff one subject followed by NUL begins the other |
| Memory.NulInSubjectCollides | pkg/memory/memory.go:53-57 | a concrete pair of entries with one preimage, the subject of one holding a NUL |
| Memory.ValidateContent | pkg/memory/memory.go:121-138 | the detectors' verdict: size first, then injection patterns in the lower-cased text |
| Memory.PhrasesRefused | pkg/memory/memory.go:100-138 | each of the thirteen phrases is reason to refuse a content |
| Memory.ContainsExactly | pkg/memory/memory.go:128-137 | a phrase is contained iff the text is something, the phrase, and something more |
| Memory.InMemoryStore.Write | pkg/memory/memory.go:159-188 | entry appended and logged, or the rejection logged, or nothing for a bad argument |
| Memory.InMemoryStore.Read | pkg/memory/memory.go:192-207 | all entries in order, or the first whose hash fails, which is logged |
| Memory.InMemoryStore.Delete | pkg/memory/memory.go:212-226 | the first entry with the id is removed, the rest keep their order; not found otherwise |
| Memory.InMemoryStore.Audit | pkg/memory/memory.go:230-237 | the agent's own trail |
| Memory.InMemoryStore.TamperForTesting | pkg/memory/memory.go:255-265 | the content of the first entry with the id is replaced, nothing else changes |
| Memory.RemoveInPlace | pkg/memory/memory.go:216-223 | the shift in the backing array leaves exactly the entries before and after the first match, and their ids with the first occurrence removed |
| Memory.RemoveFirstIsCut | pkg/memory/memory.go:216-223 | closing the gap at the first match removes exactly the first occurrence of the id, and nothing when there is none |
| Memory.AuditRebuildsIds | pkg/memory/memory.go:159-250 | in every run, replaying an agent's trail rebuilds the ids of its entries in order |
| Memory.Isolation | pkg/memory/memory.go:159-250 | an agent's outputs are those of the run with all other agents' operations erased |
| Memory.ContentIsHashed | pkg/memory/memory.go:53-57 | changing the content alone always breaks the hash |
| Memory.ReadDetectsTampering | pkg/memory/memory.go:192-207 | after any run Read succeeds iff the entries are those of the run without tampering, and otherwise names the first that is not |
| Memory.StoredIsClean | pkg/memory/memory.go:121-188 | without tampering nothing stored is oversized or contains a pattern, and each entry is its agent's own |
| Base64Url.RoundTrip | pkg/keys/ec.go:93-101 | base64url decoding undoes encoding for all bytes |
| Base64Url.AlphabetExactly | pkg/keys/ec.go:93-101 | the URL-safe alphabet, letter by letter |
| Base64Url.GroupValue | pkg/keys/ec.go:93-101 | three bytes and their four digits are the same 24 bits, most significant first |
| Base64Url.DecodesExactly | pkg/keys/ec.go:62-75 | what decodes: letters of the alphabet and line breaks, with no single letter left over |
| Base64Url.LengthOfEncoding | pkg/keys/ec.go:93-101 | an encoding of n bytes has (4n + 2) / 3 characters |
| Base64Url.AlphabetOnly | pkg/keys/ec.go:93-101 | an encoding has characters of the URL-safe alphabet only |
| Keys.EncodeCoordBuffer | pkg/keys/ec.go:93-101 | copying into a zeroed 32-byte buffer gives the padded big-endian encoding |
| Keys.CoordRoundTrip | pkg/keys/ec.go:62-101 | decoding a coordinate gives the number back; below 2^256 it takes 43 characters |
| Keys.CoordInjective | pkg/keys/ec.go:93-101 | no two numbers share an encoded coordinate |
| Keys.JwkRoundTrip | pkg/keys/ec.go:44-81 | x and y of the JWK are the key's coordinates, and the key survives the trip iff it is a point of the curve |
| Keys.JwkErrors | pkg/keys/ec.go:44-81 | which keys and JWKs are refused, and for what |
| Keys.ThumbprintDistinguishesKeys | pkg/cb4a/cdp.go:381-391 | two keys on the curve with one thumbprint preimage are one key |
| Keys.RawSig | pkg/webauthn/assertion.go:54-61 | the 64-byte buffer holds r and s, each padded to 32 bytes |
| Keys.SignatureRoundTrip | pkg/webauthn/assertion.go:38-61 | the verifier's 32/32 split reads back the r and s that were written |
| Keys.SplitExactly | pkg/webauthn/assertion.go:38-46 | a signature is read iff it decodes to 64 bytes: r from the first half, s from the second |
| Chain.PrintAfterParse | pkg/identity/chain.go:22-38 | parsing yields well-formed chains only, and printing one gives the parsed string |
| Chain.ParseAfterPrint | pkg/identity/chain.go:22-38 | parsing undoes printing for every well-formed chain |
| Chain.ParseErrors | pkg/identity/chain.go:22-33 | the empty string is refused, and so is an empty token, named by its first position |
| Chain.HashBindsChain | pkg/identity/chain.go:57-60 | equal chain hashes mean equal chains |
| Chain.Extend | pkg/identity/chain.go:45-53 | a fresh chain with the token appended, the argument left intact; refused only for an empty token |
| Chain.ExtendPrints | pkg/identity/chain.go:36-53 | an extended chain prints as the old one, a tilde and the token |
| Chain.Validate | pkg/identity/chain.go:71-95 | success iff every hop validates under its issuer's validator with its position as depth, and then all agents in order; else the first bad position |
| Chain.ValidChainShape | pkg/identity/chain.go:71-95 | every non-empty prefix of a valid chain is valid and its tokens are pairwise distinct |
| Chain.IssuedChainExactly | pkg/identity/chain.go:71-95 | a chain of issued tokens is valid iff each stands at its own depth and is within its lifetime |
| Chain.ExtendKeepsValid | pkg/identity/chain.go:45-95 | extending a valid chain keeps it valid iff the new token is a valid hop of the next depth |
| Chain.ValidateWithAny | internal/gateway/multivalidator.go:15-28 | whatever the iteration order: success iff some validator accepts, with that token's agent |
| Chain.AnyIsByIssuer | internal/gateway/multivalidator.go:15-50 | with every validator under its own issuer, trying all equals looking up the peeked issuer |
| Chain.LookupsAgreeExactly | internal/gateway/multivalidator.go:15-50 | the leaf check and the hop check accept the same tokens, for every decoder, token and reading, iff every validator is the one found under its own issuer |
| Chain.MisfiledValidatorDiffers | internal/gateway/multivalidator.go:15-28 | a validator filed under another name only passes leaf tokens but no chain hop |
| Chain.AliasIsHarmless | internal/gateway/multivalidator.go:15-28 | a validator filed under its issuer and under an alias does not make the checks differ |
| Scope.FieldsOfJoin | pkg/obo/issuer.go:156-176 | splitting at white space undoes joining with spaces, for all words |
| Scope.FieldsOfWord | pkg/obo/issuer.go:156-176 | a word before white space or the end is cut off first |
| Scope.FieldsAfterSpace | pkg/obo/issuer.go:156-176 | leading white space of any kind is skipped |
| Scope.BuildScopeSet | pkg/obo/issuer.go:170-176 | the set of the words of a scope |
| Scope.Resolve | pkg/obo/issuer.go:156-168 | the loop grants the request or names the first word that was not granted |
| Scope.ResolveExactly | pkg/obo/issuer.go:156-168 | granted iff empty or within the grant; never wider; the token list is the requested one; an error names the first word outside |
| Scope.ResolveIdempotentExactly | pkg/obo/issuer.go:156-168 | asking again grants the same list, unless the request was blank without being empty and the grant was not |
| Scope.BlankRequestRegainsAll | pkg/obo/issuer.go:156-168 | with "read" granted, a blank request is granted nothing and the request that grant becomes is granted "read" |
| Scope.DelegationNeverWidens | pkg/obo/issuer.go:156-168 | no sequence of delegations ends outside the first grant |
| SdJwt.Present | pkg/obo/sdjwt.go:118-140 | the token, the disclosures to be shown in issue order, and a closing tilde |
| SdJwt.SelectedInOrder | pkg/obo/sdjwt.go:118-130 | what is shown keeps its issue order |
| SdJwt.WireFormat | pkg/obo/sdjwt.go:52-79 | a disclosure decodes to salt, name and value, in this order |
| SdJwt.Validate | pkg/obo/sdjwt.go:242-318 | the verifier's verdict and claims as the specification function gives them |
| SdJwt.RefusalsExactly | pkg/obo/sdjwt.go:242-282 | refused before any disclosure is read: a string without a tilde, and a token of another type, issuer, key or audience, or not open |
| SdJwt.NonEmptyInOrder | pkg/obo/sdjwt.go:242-268 | empty pieces are skipped wherever they stand, the others keep their order |
| SdJwt.ParseWireExactly | pkg/obo/sdjwt.go:299-309 | a disclosure says a pair iff it decodes to exactly three strings that end with it |
| SdJwt.CollectDisclosures | pkg/obo/sdjwt.go:284-310 | each string must match a digest and decode to a triple; the first failure is the result |
| SdJwt.LearnsExactly | pkg/obo/sdjwt.go:284-310 | whatever the order and repetition: accepted iff every string is an issued disclosure, and then exactly the pairs they carry are learned |
| SdJwt.PresentThenValidate | pkg/obo/sdjwt.go:118-318 | validating a presentation yields exactly the issued pairs whose name was to be shown |
| SdJwt.IssuePresentValidate | pkg/obo/sdjwt.go:118-318 | from issue to verification: accepted iff by the issuer's validator, for the token's audience and while it lasts, and then exactly the named ones of email and given name are learned |
| SdJwt.OnlyIssuedPairs | pkg/obo/sdjwt.go:242-318 | any accepted presentation shows issued pairs only |
| SdJwtWitness.SomeCodecRoundTrips | pkg/obo/sdjwt.go:52-79 | some codec of string arrays satisfies what the disclosure results assume of JSON |
| SdJwt.TildeRoutes | pkg/obo/issuer.go:99-120 | a plain compact token never contains a tilde and a presentation always does |
| Gateway.Receiver.HandleSessionRevoked | pkg/ssfreceiver/remediation.go:86-102 | exactly the subject named in sub, or in uri where sub is empty, is recorded with the time; nothing else changes |
| Gateway.Receiver.ServeHttp | pkg/ssfreceiver/receiver.go:113-140 | an empty jti is refused and a known one conflicts, changing nothing; any other is recorded and revokes exactly the subject its payload names |
| Gateway.Receiver.IsRevoked | pkg/ssfreceiver/remediation.go:37-42 | whether the subject is in the revoked set |
| Gateway.Server.ResolveAgent | internal/gateway/server.go:210-234 | static validators first, then the federated key of the peeked issuer |
| Gateway.Server.VerifyMtlsBinding | internal/gateway/server.go:240-251 | bound iff some URI name of the peer certificate equals the subject |
| Gateway.Server.ValidateProof | pkg/identity/proof.go:146-210 | refused without a change unless type, key, window, URI, chain hash and jti are right at the parser's reading; then the jti is offered to the store at its own reading, and its answer decides |
| Gateway.Server.AgentAuth | internal/gateway/server.go:105-206 | verdict, replay store and revoked set are those of the request transition, with separate readings for leaf, chain, proof and replay store |
| Gateway.ForwardedProvesPossession | internal/gateway/server.go:105-234 | a forwarded request's proof is signed with the workload key of a leaf token that a static or federated validator accepts |
| Gateway.FederatedExactly | internal/gateway/server.go:210-234 | a leaf no static validator accepts is valid iff federation is on, answers the key that signed it for the issuer it names, and it is a well-formed open agent token |
| Gateway.StaticFirst | internal/gateway/server.go:210-215 | a leaf some static validator accepts is settled by it |
| Gateway.HonestForwardedExactly | internal/gateway/server.go:105-206 | the request of an agent with an issued token and a generated proof is forwarded iff each is checked within its lifetime, the agent is neither revoked nor unbound, the proof is new and the agent authorized |
| Gateway.ProofFitsExactly | pkg/identity/proof.go:51-210 | a generated proof is accepted for exactly the key and URI it was made for, a chain that prints alike, and exactly while it lasts; well-formed chains that print alike are equal |
| Gateway.ProofFitsOneChain | pkg/identity/proof.go:184-188 | one proof token is accepted with one chain header only |
| Gateway.EarlyRejectionChangesNothing | internal/gateway/server.go:105-206 | a request turned away before the replay check changes no state |
| Gateway.EventsSeenExactly | pkg/ssfreceiver/receiver.go:113-130 | the jtis on record are exactly the non-empty ones delivered |
| Gateway.RevokedExactly | pkg/ssfreceiver/remediation.go:86-102 | over every run a subject is revoked iff a first-seen event names it, in sub, or in uri where sub is empty |
| Gateway.AckExactly | pkg/ssfreceiver/receiver.go:113-130 | over every run: refused iff the jti is empty, conflict iff it was delivered before, accepted iff first seen |
| Gateway.RevokedIsNeverForwarded | internal/gateway/server.go:119-125 | after the 202 for such an event no request of that subject is forwarded |
| Gateway.StoreFollowsCalls | pkg/identity/proof.go:198-207 | the gateway's replay store is the store after exactly the calls its requests made, in order |
| Gateway.ProofForwardedOnce | internal/gateway/server.go:151-171 | on a forward clock a proof token is forwarded a second time only if the replay store was reached past its expiry |
| Gateway.ReplayRejectedExactly | pkg/identity/proof.go:198-207 | on a forward clock, with a jti fixing its exp: a proof that reaches the store again is rejected as a replay iff it is recorded by its expiry |
| Gateway.StraddledExpiryForwardsTwice | pkg/identity/store.go:32-61 | a concrete run: a proof parsed at 9, recorded at 11 and expiring at 10 is forwarded a second time |
| Gateway.FirstNameExactly | internal/gateway/server.go:236-251 | a certificate binds by its first URI name, for every agent, iff all its URI names are that one |
| Gateway.LaterNameBinds | internal/gateway/server.go:236-251 | a certificate whose second URI name is the subject is bound |
| GatewayFederation.ReachedCoherent | pkg/federation/resolver.go:61-141 | after any registrations and resolutions on a forward clock the cache holds only what a fresh resolution would give |
| GatewayFederation.AnsweredExactly | internal/gateway/server.go:222-231 | the resolver answers exactly the key that registered documents and a trust anchor make the issuer's |
| GatewayFederation.FederatedLeafIsAnchored | internal/gateway/server.go:210-234 | a request forwarded through federation has a leaf signed by a key that a trust anchor vouches for, through documents registered for the issuer the leaf names |
| FeedCursor.CheckRssFeed | scripts/check_standards.py:83-147 | one run reports and remembers what the specification function says |
| FeedCursor.CursorAt | scripts/check_standards.py:129-147 | the cursor is unset until a match is shown, then always the guid of the newest match shown |
| FeedCursor.ReportedExactly | scripts/check_standards.py:129-147 | a run reports a post iff it matches, this run is the first to show it, and a baseline was set before |
| FeedCursor.ReportedAtMostOnce | scripts/check_standards.py:129-147 | no post is reported by two runs |
| FeedCursor.ReportNewestFirst | scripts/check_standards.py:141-147 | a report lists its posts newest first, each once |

## Left out

- Signature arithmetic, TLS, X.509, JSON and JWT parsing: symbolic or parameters, as said above.
- HTTP, reverse proxying, request bodies, OpenFGA and rule lookup: a request brings its headers, and the authorizer is a parameter.
- Policy.PrefixStarSuffix: path.Match also knows `?`, `[...]` and backslash; the model reads them as plain characters, and no default rule has any.
- BrokerObjects.AuditLog.Append: the in-memory append never fails, so the branches that refuse a call because the log refused are not modelled; entry ids and timestamps are left out.
- BrokerObjects.InMemoryPdp.Evaluate: the id generator and the signing library are inputs; a signing failure is a step of the state machine only.
- BrokerTheorems.EveryCallHasItsCause: target and action of an api_call entry come from the call itself, so nothing is said about them.
- Envelope signing and parsing, the vault's upstream secrets and pending-request listing: field copies.
- Sub-second parts of times: JWT numeric dates are whole seconds here.
- Federation.InMemoryResolver.Resolve: one clock reading serves all its checks, and calls do not interleave with registrations.
- HttpFederation.HttpResolver.Resolve: what a fetch brings is a parameter, so URLs and changing documents are left out; concurrent calls on its cache are not modelled.
- Memory.InMemoryStore.Delete: the class holds each namespace as a sequence of values, so the pointers that Write and Read hand out are not captured (the shift in the array is `Memory.RemoveInPlace`); calls run one at a time.
- Memory.InMemoryStore.Write: the size limit counts characters of a string whose characters are bytes; lower-casing is a parameter.
- Gateway.Server.AgentAuth: one request is one transition; interleaving of requests within the pipeline is not modelled. All validators tried for a leaf share one clock reading, and so do all hops of a chain.
- BrokerObjects.Cdp.SimulateApiCall: the token and its proof are parsed at one clock reading.
- Gateway.Server.ValidateProof: the transaction-token hash is not checked, because the gateway never passes such a token.
- Gateway.Receiver.ServeHttp: token parsing comes before, and the remediation handler is the only handler registered.
- ValueTable.Go.FinalizeRef: Go only finalizes references it holds; what the glue does with any other id is not modelled.
- LinearMemory.WriteArgs: UTF-8 encoding and the sorting of environment names come before, and the other imports of the glue are left out.
- FeedCursor.CheckRssFeed: fetching and XML parsing come before; the keyword test is a parameter.
- The rest of scripts/check_standards.py: fetching, page hashing and issue building.
- Jose.IssuedValidExactly: role, mission, trust domain and audiences of agent tokens, which no check reads, are left out.
- SdJwt.IssueValidExactly: salts are inputs; the token's own jti is left out.
- pkg/txntoken, pkg/identitychaining, pkg/spiffeclientauth, pkg/keys/mtls.go, pkg/webauthn/prf.go, cmd: wiring and field copies that would only add easy members.
