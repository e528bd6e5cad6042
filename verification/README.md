# Positron: verified models

Dafny models of four parts of Positron and proofs about them. `dafny verify dfyconfig.toml` checks everything.

**Traces** (`Trace*.dfy`). A trace is a finite set of spans with optional parents and intervals. The fuzz target
keeps a slow reference: it finds cycles by walking parents, enumerates every compatible schedule of a span's
children, takes the lexicographic maximum and expands it into fragments. The trace store instead sorts spans into a
flat child adjacency with an in-place heap sort, colours parent walks, and walks backwards with an explicit stack. Both are
modelled with their loops and arrays, without the target's bound of six spans, and proved to give the same answer on
every finite trace. The path tiles the root interval and its checked sum never fails.

**API-key administration** (`ApiKey*.dfy`, `BigEndian.dfy`, `ByteLayout.dfy`). Creating, rotating and revoking API keys,
for the default tenant and for provisioned tenants, as a step machine: every interaction with the Catalog is one atomic
step, and any number of operations interleave with each other, with interruptions at each durable stage, with lost
acknowledgements and with publications by other administrators. Safety is proved over every run: one receipt per
idempotency key, one secret per key, agreeing successes, exact generations, credentials that only age, principals that
stay with their tenant, retries answered from the receipt, and an answer after at most seven steps. For one operation that runs
alone the exact condition of success is proved, and that its repetition changes nothing. The Catalog is also modelled as the object it is, updated
stage by stage. The byte codecs of receipts, keyrings and audit intents are proved to be inverse to each other, and
every object of every run to decode to what was written.

**Configuration** (`Configuration*.dfy`, `TomlText.dfy`). A configuration is a total map from the hundred settings of the
contract table to values and recorded sources. Layered resolution, semantic difference, update planning, live changes,
digest inputs, and the TOML string printer against the two quote scanners.

**Wire codecs** (`CapabilityWire.dfy`, `Decimals.dfy`, `TextSplit.dfy`, `Identifiers.dfy`). Varints, the two request
encodings, and canonical identifiers.

## Assumptions

- A Catalog operation holds the Catalog's operation lock, so it is one atomic step here; a generation's identity is its
  place in the history, so identities are never reused; a transaction's digest stands for its contents, so an outcome
  is compared as a value.
- Operations draw principals that no keyring has held and no operation has drawn before; a step that would commit with
  another principal does not happen.
- In runs, a request's expiry is never zero; the wire layer refuses it at crates/positron-api/src/api_keys.rs:215. `ApiKeyDigest.ZeroExpiryCollides`
  says for which requests that matters.
- The request digest and the salted secret hash are arbitrary functions. Where the code tells requests apart by the digest
  alone, the statement names the one pair of bindings that must not collide.
- Other administrators publish under transaction identities of their own and keep receipts, keyrings and the default tenant's
  credentials.
- The texts of setting paths, scalar value parsers and address parsers are parameters. Address texts hold no comma, and
  no text of a setting is longer than a configuration document may be.
- Where tenants matter, the initial Catalog's rings share no principal.
- Text for the quote scanners is a sequence of Unicode scalar values, where the source scans UTF-8 bytes; no byte of a longer encoding equals a
  quote, a backslash, a number sign or an equals sign.

Places where the code decides and the model follows it: a rotation that names the default tenant is handed to the
default operation, which refuses any named tenant; a default-tenant revocation never resumes a prepared transaction; the
recorded source of a live-reloaded setting stays the one it had; a fence covers more settings than a migration. One
property fails: a default-tenant revocation that finds no receipt reads the audit chain, where neither tenant nor digest is
compared, so a tenant's revocation of the same principal that was published under its key in between lets it succeed
(`ApiKeyTenants.MisdirectedRevocationSucceeds`, and from an initial Catalog `ApiKeyMisdirection.MisdirectedRunExists`);
`ApiKeyTenants.SuccessIsForItsTenant` has the exact condition.

## Model

| member | source | states |
|---|---|---|
| `TraceSchedule.PreferredScheduleOptions` | fuzz/fuzz_targets/trace_summary_stateful.rs:783-802 | the recursive enumeration yields exactly the compatible schedules of a parent up to a cursor, and fails exactly when some span has no usable interval |
| `TraceSchedule.GreedyIsTheMaximum` | fuzz/fuzz_targets/trace_summary_stateful.rs:804-824 | every compatible schedule other than the greedy backwards walk compares strictly below it, in both argument orders, so the maximum is unique |
| `TraceSchedule.GreedyIsCompatible` | fuzz/fuzz_targets/trace_summary_stateful.rs:783-802 | the greedy backwards walk is itself one of the enumerated schedules |
| `TraceSchedule.PreferredSchedule` | fuzz/fuzz_targets/trace_summary_stateful.rs:760-781 | enumerating and taking the maximum equals the greedy backwards walk, for every finite span set and cursor |
| `TraceSchedule.BestExists` | fuzz/fuzz_targets/trace_summary_stateful.rs:760-781 | whenever a child is eligible, one ends latest and has the smallest identifier among those |
| `TraceStructure.Consolidate` | fuzz/fuzz_targets/trace_summary_stateful.rs:615-633 | each span keeps what its first observation said and is conflicted exactly when a later one disagrees |
| `TraceStructure.CycleMembers` | fuzz/fuzz_targets/trace_summary_stateful.rs:688-708 | the result is exactly the set of spans that reach themselves by one or more parent steps |
| `TraceStructure.ExpectedStructure` | fuzz/fuzz_targets/trace_summary_stateful.rs:615-686 | roots, orphans, cycles and saturating counters are exactly those of the consolidated spans, in ascending order |
| `TraceStructure.CleanMeansTree` | fuzz/fuzz_targets/trace_summary_stateful.rs:710-724 | the guards of the critical path hold exactly when the spans form one acyclic, fully timed tree whose children nest in their parents |
| `TraceGraph.EverySpanReachesTheRoot` | fuzz/fuzz_targets/trace_summary_stateful.rs:615-708 | without cycles, missing parents or a second root, every span reaches the root in fewer parent steps than there are spans |
| `TraceGraph.LoopClosed` | fuzz/fuzz_targets/trace_summary_stateful.rs:688-708 | when a walk re-enters its trail, exactly the spans from that place on are cyclic |
| `TraceGraph.OpenWalkHasNoCycle` | fuzz/fuzz_targets/trace_summary_stateful.rs:688-708 | a walk that runs out of parents met no cyclic span |
| `TraceGraph.CycleReturns` | fuzz/fuzz_targets/trace_summary_stateful.rs:688-708 | every span above a cyclic span leads back to it |
| `TraceGraph.BelowShrinks` | fuzz/fuzz_targets/trace_summary_stateful.rs:738-758 | a child has strictly fewer descendants than its parent even when their intervals are equal, which is why the expansion ends |
| `TraceCriticalPath.PathTiles` | fuzz/fuzz_targets/trace_summary_stateful.rs:738-758 | the path up to any cursor consists of non-empty, contiguous fragments, each inside its own span's interval, that tile the interval from the span's start to the cursor |
| `TraceCriticalPath.TilesLength` | fuzz/fuzz_targets/trace_summary_stateful.rs:725-732 | tiling fragments add up to exactly the tiled interval |
| `TraceCriticalPath.SumDurations` | fuzz/fuzz_targets/trace_summary_stateful.rs:725-732 | on tiling fragments the checked 64-bit sum never fails, whatever the 64-bit endpoints, and equals end minus start |
| `TraceCriticalPath.GreedySuffix` | fuzz/fuzz_targets/trace_summary_stateful.rs:738-758 | what is left of a schedule after a child is the schedule up to that child's start, so expanding it in time order expands the walk |
| `TraceCriticalPath.ReferenceFragments` | fuzz/fuzz_targets/trace_summary_stateful.rs:738-758 | expanding preferred schedules recursively gives the path of the span, and fails exactly for untimed or unknown spans |
| `TraceCriticalPath.PathIsCritical` | fuzz/fuzz_targets/trace_summary_stateful.rs:710-733 | on every tree the path tiles the root interval and its duration is the root's |
| `TraceCriticalPath.ExpectedCriticalPath` | fuzz/fuzz_targets/trace_summary_stateful.rs:710-733 | there is a reference path exactly for trees within the size limit, it is the critical path, and its sum is the root's duration |
| `TraceIndex.Find` | crates/positron-signals/src/trace_store/structural.rs:296-324 | the binary search finds a span exactly when it is listed |
| `TraceIndex.BuildIndex` | crates/positron-signals/src/trace_store/structural.rs:261-294 | it succeeds exactly on strictly ascending identifiers and then maps every span to the position of its listed parent |
| `TraceIndex.ClassifyCycles` | crates/positron-signals/src/trace_store/structural.rs:851-909 | the colouring settles every span and marks exactly those on a cycle |
| `TraceIndex.SettledEndsTheWalk` | crates/positron-signals/src/trace_store/structural.rs:851-909 | a walk that meets an already settled span has met no new cycle |
| `TraceOrder.SiftChildHeap` | crates/positron-signals/src/trace_store/structural.rs:756-808 | sinking one element restores the heap order, permutes only the heap part and leaves the rest of the array alone |
| `TraceOrder.OrderChildren` | crates/positron-signals/src/trace_store/structural.rs:723-754 | siblings end up ordered by latest end and then smallest identifier, as a permutation of what was there |
| `TraceAdjacency.CountChildren` | crates/positron-signals/src/trace_store/structural.rs:353-373 | the first pass counts each span's children |
| `TraceAdjacency.LayoutRanges` | crates/positron-signals/src/trace_store/structural.rs:374-384 | the running sum lays the ranges out one after the other without overlap |
| `TraceAdjacency.PlaceChildren` | crates/positron-signals/src/trace_store/structural.rs:385-412 | the third pass fills every range with exactly the children of its span |
| `TraceAdjacency.BuildAdjacency` | crates/positron-signals/src/trace_store/structural.rs:347-419 | every span's range holds exactly its children, each once, in preference order |
| `TraceWalk.NextChild` | crates/positron-signals/src/trace_store/structural.rs:421-454 | the scan stops at the first open child, and at the end of the range only when none is open |
| `TraceWalk.ScanFindsBest` | crates/positron-signals/src/trace_store/structural.rs:421-454 | resuming the scan where it stopped still finds the best eligible child, although the cursor moved |
| `TraceWalk.ScanFindsNone` | crates/positron-signals/src/trace_store/structural.rs:421-454 | an exhausted scan means that no child is eligible |
| `TraceWalk.AppendFragment` | crates/positron-signals/src/trace_store/structural.rs:832-849 | an inverted fragment is refused, an empty one is dropped |
| `TraceWalk.PathReversed` | crates/positron-signals/src/trace_store/structural.rs:614-689 | latest first, a path is the gap after the best child, the child's path, and the path up to the child's start |
| `TraceWalk.Turn` | crates/positron-signals/src/trace_store/structural.rs:637-673 | one turn of the explicit stack keeps written plus owed fragments equal to the path and shortens what is owed |
| `TraceWalk.WalkPath` | crates/positron-signals/src/trace_store/structural.rs:614-689 | the backwards walk ends, has written the reference path, and wrote at most two fragments for every span but one |
| `TraceWalk.StackIsShort` | crates/positron-signals/src/trace_store/structural.rs:628-636 | the stack never holds more frames than there are spans |
| `TraceBounds.PathIsShort` | crates/positron-signals/src/trace_store/structural.rs:628-634 | the path of n spans has at most 2n - 1 fragments, so the reservation is never outgrown |
| `TraceBounds.ChildrenApart` | crates/positron-signals/src/trace_store/structural.rs:347-419 | what lies below one child of a span lies below no other |
| `TraceStore.NotesAgree` | crates/positron-signals/src/trace_store/structural.rs:527-581 | reading a span by position notes the same facts as reading it by identifier |
| `TraceStore.ReadSpans` | crates/positron-signals/src/trace_store/structural.rs:527-583 | the store's pass over the spans gives the structure the reference gives |
| `TraceStore.CriticalPath` | crates/positron-signals/src/trace_store/structural.rs:614-689 | the store's path of a tree is its critical path with the root's duration; its checked sums never fail |
| `TraceStore.Analyze` | crates/positron-signals/src/trace_store/structural.rs:465-612 | it fails exactly on unordered spans; otherwise it reports the reference structure, with a path exactly when the scan was whole and unfiltered and the spans form a tree |
| `TraceStore.DescriptionIsUnique` | fuzz/fuzz_targets/trace_summary_stateful.rs:416-574 | a trace has one structure: two that describe the same spans are equal member by member |
| `TraceStore.CompareWithReference` | fuzz/fuzz_targets/trace_summary_stateful.rs:416-574 | on every trace the store's report has the reference structure, and within the size limit the reference path is the store's |
| `ApiKeyDigest.PreimageInjective` | crates/positron-governance/src/api_key_administration_digest.rs:5-139 | two requests have the same digest input if and only if they agree in operation, tenant and every bound fact, up to a zero expiry of a tenant's request |
| `ApiKeyDigest.ZeroExpiryCollides` | crates/positron-governance/src/api_key_administration_digest.rs:5-65 | a request with expiry zero has the digest input of the one without expiry exactly when it is a tenant's; the default tenant's flag byte keeps the two apart |
| `ApiKeys.LookupsSucceed` | crates/positron-governance/src/api_key_administration_keyring.rs:28-50 | in a keyed snapshot the governance object and any tenant's keyring are found and are the ones there |
| `ApiKeyStore.CatalogStore.constructor` | crates/positron-kernel/src/catalog/mod.rs:263-293 | an opened Catalog holds what it was opened on |
| `ApiKeyStore.CatalogStore.Recover` | crates/positron-kernel/src/catalog/mod.rs:743-746 | readers see the last published generation, and nothing else changes |
| `ApiKeyStore.CatalogStore.PrepareTransaction` | crates/positron-kernel/src/catalog/storage/mod.rs:322-361 | after its directory is open, preparation conflicts exactly with a different transaction in staging, otherwise completes it, and an interruption leaves what the earlier stages wrote |
| `ApiKeyStore.CatalogStore.PublishMarker` | crates/positron-kernel/src/catalog/storage/mod.rs:799-846 | the marker appends one generation, one audit record and one outcome together |
| `ApiKeyStore.CatalogStore.CommitPrepared` | crates/positron-kernel/src/catalog/mod.rs:717-888 | the staged commit equals the one-step compare-and-swap for every interruption |
| `ApiKeyStore.CatalogStore.ResumePrepared` | crates/positron-kernel/src/catalog/mod.rs:510-594 | the staged resume equals the one-step resume for every interruption |
| `ApiKeyPublication.CommitCases` | crates/positron-kernel/src/catalog/mod.rs:717-888 | a commit publishes over the current generation, stages, or leaves the Catalog as recovered |
| `ApiKeyPublication.CommitKeeps` | crates/positron-kernel/src/catalog/mod.rs:480-506 | committing a sound proposal keeps the Catalog invariant, however it is interrupted |
| `ApiKeyPublication.ResumeKeeps` | crates/positron-kernel/src/catalog/mod.rs:510-594 | resuming keeps the Catalog invariant, however it is interrupted |
| `ApiKeyPublication.PublishKeeps` | crates/positron-governance/src/api_key_administration_commit.rs:12-84 | publishing ring, receipt and audit record together keeps receipts, records, generations and rings in agreement |
| `ApiKeyPublication.RebuiltRings` | crates/positron-governance/src/api_key_administration_keyring.rs:194-205 | the rebuilt object set has the new ring for its tenant and the old one for every other |
| `ApiKeyPublication.PublishElsewhereKeeps` | crates/positron-kernel/src/catalog/mod.rs:441-476 | a publication by another administrator keeps the invariant |
| `ApiKeyProposals.ChangesAreGood` | crates/positron-governance/src/api_key_administration_default.rs:294-306 | a creation or rotation appends one active credential, a revocation deactivates its target in place, and the ring stays valid |
| `ApiKeyProposals.ProposalsAreSound` | crates/positron-governance/src/api_key_administration_commit.rs:5-86 | what an operation proposes is sound for the generation it pinned: its receipt decodes, its digest is bound, its ring succeeds the old one |
| `ApiKeyRuns.InitialIsOk` | crates/positron-kernel/src/catalog/mod.rs:263-293 | a Catalog without API-key history satisfies the invariant |
| `ApiKeyRuns.NextIsOk` | crates/positron-governance/src/api_key_administration_provisioned.rs:8-112 | every step of every operation keeps the Catalog good and only lets it grow, and keeps every answer backed |
| `ApiKeyRuns.ApplyIsOk` | crates/positron-governance/src/api_key_administration_default.rs:36-336 | every event of a run keeps the Catalog and all operations good |
| `ApiKeyRuns.RunIsOk` | crates/positron-governance/src/api_key_administration_default.rs:36-336 | so does every run |
| `ApiKeyRuns.SecretIsBacked` | crates/positron-governance/src/api_key_administration_default.rs:121-146 | a commit that answers with a secret has published the credential that the secret opens |
| `ApiKeyRuns.FreshIsUnpublished` | crates/positron-governance/src/api_key_administration_support.rs:156-180 | a principal that is fresh has not been published under any key |
| `ApiKeySafety.OneReceiptPerKey` | crates/positron-governance/src/api_key_administration_receipt.rs:65-84 | over every interleaving no generation holds two receipts under one idempotency key |
| `ApiKeySafety.EveryGenerationIsReadable` | crates/positron-governance/src/api_key_administration_keyring.rs:28-50 | in every reachable generation every lookup of governance object, keyring and receipt succeeds |
| `ApiKeySafety.ReceiptIsFound` | crates/positron-governance/src/api_key_administration_receipt.rs:65-84 | a receipt lookup finds exactly the receipt that is there |
| `ApiKeySafety.ReceiptsMatchTheAudit` | crates/positron-governance/src/api_key_administration_commit.rs:23-84 | receipts and API-key audit records correspond one to one, each at its own position |
| `ApiKeySafety.FallbackHasReceipt` | crates/positron-governance/src/api_key_administration_replay.rs:272-289 | the audit fallback never finds an entry for a key that has no receipt |
| `ApiKeySafety.OneSecretPerKey` | crates/positron-governance/src/api_key_administration_provisioned.rs:42-111 | at most one response per key carries a secret, and the credential that the secret opens is in the published keyring |
| `ApiKeySafety.EverySuccessIsPublished` | crates/positron-governance/src/api_key_administration_replay.rs:6-270 | every success, from a commit, a resume, a receipt or the audit chain, is answered from a mutation published under its key with the request's action, actor, generation and target, or scope and expiry |
| `ApiKeyPrincipals.EventIsTidy` | crates/positron-governance/src/api_key_administration_support.rs:156-180 | every event keeps the principals of different rings apart, and those of interrupted mutations reserved |
| `ApiKeyTenants.PrincipalsStayApart` | crates/positron-governance/src/api_key_administration_support.rs:156-180 | in no generation of any run do two tenants share a principal |
| `ApiKeyTenants.SuccessIsForItsTenant` | crates/positron-governance/src/api_key_administration_replay.rs:6-270 | where the digest does not collide, the mutation behind a success is about the tenant its request means if and only if the request is not a default-tenant revocation of a provisioned tenant's principal |
| `ApiKeyTenants.SuccessesShareTheTenant` | crates/positron-governance/src/api_key_administration_replay.rs:6-270 | two successes under one key mean the same tenant, that revocation aside |
| `ApiKeyTenants.MisdirectedRevocationSucceeds` | crates/positron-governance/src/api_key_administration_replay.rs:208-222 | the exception happens: a default-tenant revocation between its lookup and the audit chain succeeds on a tenant's revocation that commits in between |
| `ApiKeyMisdirection.CrossingIsReached` | crates/positron-governance/src/api_key_administration_replay.rs:190-222 | from every initial Catalog where both revocations are admitted under a new key and the tenant's is granted, eight events lead to the state in which that happens |
| `ApiKeyMisdirection.MisdirectedRunSucceeds` | crates/positron-governance/src/api_key_administration_replay.rs:190-222 | and two more make the default-tenant revocation succeed on the tenant's mutation |
| `ApiKeyMisdirection.MisdirectedRunExists` | crates/positron-governance/src/api_key_administration_replay.rs:190-222 | such a run exists: one default and one provisioned tenant, whose only principal both revocations name, under every non-zero digest |
| `ApiKeySafety.SuccessesAgree` | crates/positron-governance/src/api_key_administration_replay.rs:6-270 | any two successes under one key name the same principal, for requests that agree on action, actor, generation and target, or scope and expiry, in whatever order they came about |
| `ApiKeySafety.GenerationsCount` | crates/positron-governance/src/api_key_administration_support.rs:48-59 | a ring's generation is its initial one plus the number of its committed mutations |
| `ApiKeySafety.CredentialsOnlyAge` | crates/positron-governance/src/api_key_administration_default.rs:225-264 | between any two generations no credential disappears, changes scope, expiry or hash, or becomes active again, and no receipt is lost |
| `ApiKeySafety.GenerationsStepExactly` | crates/positron-governance/src/api_key_administration_keyring.rs:186-267 | each generation changes only the ring its audit record names, by exactly one appended or deactivated credential; a rotation leaves its predecessor as it was and gives its successor the same scope and expiry |
| `ApiKeyReplay.MatchesExactlyTheSame` | crates/positron-governance/src/api_key_administration_replay.rs:15-34 | a receipt matches a request under its key if and only if action, tenant, actor, generation and target, or scope and expiry, agree |
| `ApiKeyReplay.RetryStep` | crates/positron-governance/src/api_key_administration_replay.rs:6-69 | a step of a retry changes nothing, stays with the tenant its request means, and brings it closer to its answer: unauthorized exactly when the request is refused, without the credential only when a generation with the receipt does not register its tenant, and as the receipt says otherwise |
| `ApiKeyReplay.RetriesGetTheReceipt` | crates/positron-governance/src/api_key_administration_replay.rs:6-270 | once a mutation is visible, whatever runs in between, an operation begun under its key ends unauthorized if and only if its own operation, or the default one it is handed to, denies the request; otherwise with the receipt's principal and no secret for the same request and the same tenant, and with a conflict for any other, or without the credential when a generation with the receipt does not register its tenant |
| `ApiKeyReplay.RetryEvent` | crates/positron-governance/src/api_key_administration_replay.rs:6-270 | no event turns a retry into anything else, and its own steps leave the Catalog unchanged |
| `ApiKeyReplay.RetryIsAnswered` | crates/positron-governance/src/api_key_administration_support.rs:98-130 | an admitted retry, on a registered tenant, on the default tenant or handed to it by name, is answered from the receipt in two steps, or three when handed on: the principal for the same request, a conflict for any other |
| `ApiKeyReplay.PublishedIsVisible` | crates/positron-kernel/src/catalog/mod.rs:743-746 | once readers have caught up, every published mutation's receipt is visible |
| `ApiKeyReplay.AcknowledgedIsVisible` | crates/positron-governance/src/api_key_administration_commit.rs:74-86 | an acknowledged commit is visible at once under a receipt of its request |
| `ApiKeyReplay.NamedDefaultRotationIsRefused` | crates/positron-governance/src/api_key_administration_default.rs:155-157 | a rotation that names the default tenant is handed over and refused |
| `ApiKeyProgress.NextDescends` | crates/positron-governance/src/api_key_administration_provisioned.rs:158-263 | every step brings its operation closer to an answer and never shortens the history |
| `ApiKeyProgress.CommitsOnlyOnce` | crates/positron-governance/src/api_key_administration_provisioned.rs:42-66 | an operation that goes on to commit has published nothing before |
| `ApiKeyAdministration.SevenStepsAtMost` | crates/positron-governance/src/api_key_administration_provisioned.rs:8-112 | whatever the others do, an operation is answered after at most seven steps of its own |
| `ApiKeyAdministration.FindActive` | crates/positron-governance/src/api_key_administration_support.rs:74-87 | the search gives the first active, tenant-scoped credential of the principal, or an error when there is none |
| `ApiKeyAdministration.ResumeStep` | crates/positron-governance/src/api_key_administration_default.rs:65-102 | resolving an earlier attempt through the store equals the resume step |
| `ApiKeyAdministration.CommitStep` | crates/positron-governance/src/api_key_administration_default.rs:103-147 | proposing and committing through the store equals the commit step |
| `ApiKeyAdministration.Administer` | crates/positron-governance/src/api_key_administration_default.rs:36-147 | an operation driven against the store ends, in the state and with the answer of the step machine run alone |
| `ApiKeyAdministration.AloneIsOk` | crates/positron-governance/src/api_key_administration_default.rs:36-336 | an operation run alone keeps the Catalog good, and its success is backed by a published mutation |
| `ApiKeyRepetition.RepetitionIsIdempotent` | crates/positron-governance/src/api_key_administration_replay.rs:6-270 | after a success, by a commit, a resumed attempt or a receipt, repeating the request leaves the Catalog unchanged and returns the same principal without a secret |
| `ApiKeyRepetition.CollisionIsAConflict` | crates/positron-governance/src/api_key_administration_default.rs:74-102 | the condition on the digest is exact: after resuming a colliding tenant's transaction the repetition is a conflict |
| `ApiKeyRepetition.ResumedIsVisible` | crates/positron-kernel/src/catalog/mod.rs:510-594 | a resumed transaction is visible at once under its receipt |
| `ApiKeySuccess.ProposesExactly` | crates/positron-governance/src/api_key_administration_commit.rs:5-86 | a mutation is proposed if and only if its generation is current and can be followed, the audit chain has room, its digest is not zero, and there is a target, or room and material for a credential, where it needs them |
| `ApiKeySuccess.SucceedsExactly` | crates/positron-governance/src/api_key_administration_provisioned.rs:8-112 | under a new key an operation that runs alone succeeds if and only if it is admitted and its mutation can be proposed, and then returns the new principal with its secret |
| `ApiKeyReceipt.ReceiptRoundTrip` | crates/positron-governance/src/api_key_administration_receipt.rs:36-165 | an encoded receipt decodes to the same fields exactly when these satisfy the decoder's conditions |
| `ApiKeyReceipt.ReceiptIsCanonical` | crates/positron-governance/src/api_key_administration_receipt.rs:86-165 | whatever bytes decode are the encoding of what they decode to |
| `ApiKeyKeyring.EncodeTenantKeyring` | crates/positron-governance/src/api_key_administration_keyring.rs:149-184 | the buffer is the keyring's form, and only sizes from 1 to 128 are written |
| `ApiKeyKeyring.DecodeTenantKeyring` | crates/positron-governance/src/api_key_administration_keyring.rs:52-147 | the loop over records accepts and rejects as the record-by-record reading does |
| `ApiKeyKeyring.CredentialRoundTrip` | crates/positron-governance/src/api_key_administration_keyring.rs:87-182 | a credential record reads back to the credential, a zero expiry as none, exactly when the constructor admits it |
| `ApiKeyKeyring.KeyringRoundTrip` | crates/positron-governance/src/api_key_administration_keyring.rs:52-184 | a written keyring decodes to itself, zero expiries as none, exactly when its credentials are valid with distinct principals |
| `ApiKeyKeyring.KeyringIsCanonical` | crates/positron-governance/src/api_key_administration_keyring.rs:52-147 | whatever bytes decode are the keyring's form |
| `ApiKeyAudit.IntentRoundTrip` | crates/positron-governance/src/audit/codec.rs:379-510 | an audit intent decodes to the fields it was written for, a zero expiry as none, exactly when scope, generations and digest are those of a mutation |
| `ApiKeyObjects.MagicTells` | crates/positron-governance/src/api_key_administration_commit.rs:12-21 | the leading bytes tell receipts, keyrings and the governance object apart |
| `ApiKeyObjects.FindReceiptIn` | crates/positron-governance/src/api_key_administration_receipt.rs:65-84 | the loop over byte objects gives the receipt lookup, errors included |
| `ApiKeyObjects.FindKeyringIn` | crates/positron-governance/src/api_key_administration_keyring.rs:28-50 | the loop over byte objects gives the keyring lookup, errors included |
| `ApiKeyObjects.RebuildForDefault` | crates/positron-governance/src/api_key_administration_commit.rs:12-39 | the rebuilt objects are the old bytes without the governance object, unchanged and in order, then the replacement and the receipt |
| `ApiKeyObjects.RebuildForTenant` | crates/positron-governance/src/api_key_administration_keyring.rs:194-220 | the same without the tenant's keyring, and it fails exactly when some keyring is unreadable |
| `ApiKeyObjects.FindReplayEntry` | crates/positron-governance/src/api_key_administration_replay.rs:272-289 | the loop over the audit chain gives the last record under the key, and a foreign one is a conflict |
| `ApiKeyDurability.ReceiptsDecode` | crates/positron-governance/src/api_key_administration_receipt.rs:36-165 | every receipt and audit intent of every run decodes to what was written |
| `ApiKeyDurability.KeyringsDecode` | crates/positron-governance/src/api_key_administration_keyring.rs:52-205 | every keyring of every run decodes to what was written, holds 1 to 128 credentials with distinct principals, and is its tenant's only one |
| `BigEndian.DecodeEncode` | crates/positron-governance/src/api_key_administration_receipt.rs:36-63 | fixed-width big-endian numbers read back |
| `BigEndian.EncodeDecode` | crates/positron-governance/src/api_key_administration_receipt.rs:86-165 | and every byte string of the width is the encoding of its number |
| `Configuration.SemanticDiff` | crates/positron-config/src/effective.rs:682-698 | the difference lists exactly the settings that differ, in table order, with the source of each side |
| `Configuration.ChangedMembers` | crates/positron-config/src/effective.rs:1023-1394 | a setting is listed exactly when its values differ |
| `Configuration.PlanUpdate` | crates/positron-config/src/effective.rs:886-901 | it refuses exactly when the diff plan requires migration, naming the first immutable setting that changed, and otherwise agrees with the diff's plan and settings |
| `Configuration.MigrationFences` | crates/positron-config/src/effective.rs:2327-2340 | a difference that requires migration always fences |
| `Configuration.FenceWithoutMigration` | crates/positron-config/src/settings.rs:340-366 | a difference fences without requiring migration if and only if it leaves immutable settings alone and changes the control path, the public transport or a certificate or key file |
| `Configuration.WithLiveChanges` | crates/positron-config/src/effective.rs:908-1021 | the active configuration takes exactly the live-reloadable values of the candidate and keeps recorded sources |
| `Configuration.LiveChangesSplit` | crates/positron-config/src/effective.rs:908-1021 | the difference from old to active is the live part, from active to candidate the rest, and applying again changes nothing |
| `ConfigurationDigest.TextInjective` | crates/positron-config/src/effective.rs:1396-1742 | on validated values a setting's canonical text determines its value |
| `ConfigurationDigest.CommaCollides` | crates/positron-config/src/effective.rs:2099-2105 | without validation it would not: an entry holding a comma reads as two |
| `ConfigurationDigest.DestinationInjective` | crates/positron-config/src/effective.rs:2071-2091 | an export destination's text determines the destination |
| `ConfigurationDigest.DigestInput` | crates/positron-config/src/effective.rs:593-632 | the loop feeds the length-prefixed paths and texts of the bound settings in table order |
| `ConfigurationDigest.PreimageInjective` | crates/positron-config/src/effective.rs:593-632 | digest inputs are equal if and only if the bound settings are |
| `ConfigurationDigest.DigestsMatchTheDiff` | crates/positron-config/src/effective.rs:593-632 | for valid configurations audit bindings are equal exactly when the diff is empty, immutable bindings differ exactly when an update is refused |
| `ConfigurationValidity.ParseTrustedProxyCidrs` | crates/positron-config/src/lib.rs:1364-1392 | a list is accepted exactly when it is short enough and every item is a range, and then is what the setting accepts |
| `ConfigurationValidity.ParseCorsAllowedOrigins` | crates/positron-config/src/lib.rs:1394-1428 | the same for origins, none of them named twice |
| `ConfigurationValidity.AcceptedIsValid` | crates/positron-config/src/lib.rs:1364-1545 | whatever the parsers of a setting accept is valid for the digests |
| `ConfigurationValidity.ResolvedIsValid` | crates/positron-config/src/lib.rs:49-59 | what resolution returns from accepted defaults and entries is valid |
| `ConfigurationValidity.ResolvedDigestsMatchTheDiff` | crates/positron-config/src/effective.rs:593-632 | so for any two results of resolution audit bindings are equal exactly when the diff is empty, and immutable bindings differ exactly when an update is refused |
| `ConfigurationValidity.CompareResolutions` | crates/positron-config/src/effective.rs:886-901 | resolving twice and comparing digest inputs decides both |
| `ConfigurationDigest.LiveChangesKeepTheBinding` | crates/positron-config/src/effective.rs:593-610 | applying live changes keeps the immutable binding |
| `ConfigurationEntries.CidrIsPlain` | crates/positron-config/src/lib.rs:1502-1545 | an accepted proxy range is not empty and holds no comma |
| `ConfigurationEntries.OriginIsPlain` | crates/positron-config/src/lib.rs:1430-1493 | an accepted origin is not empty and holds no comma |
| `ConfigurationResolution.CollectPairs` | crates/positron-config/src/inputs.rs:203-233 | pairs are accepted exactly when they are few, short and have distinct keys |
| `ConfigurationResolution.EnvironmentPathInjective` | crates/positron-config/src/source.rs:206-226 | no two environment keys name the same path |
| `ConfigurationResolution.Candidate.constructor` | crates/positron-config/src/lib.rs:265-516 | a candidate starts from the defaults, each recorded as compiled in |
| `ConfigurationResolution.Candidate.Apply` | crates/positron-config/src/lib.rs:518-896 | an entry changes its one setting and source, or is refused and changes nothing; an unknown setting, a forbidden source and a bad value each have their failure |
| `ConfigurationResolution.Candidate.ApplyLayer` | crates/positron-config/src/source.rs:521-557 | a layer is applied exactly when all its entries are admissible, its last mention of a setting decides, and otherwise its first refused entry gives the failure |
| `ConfigurationResolution.Resolve` | crates/positron-config/src/lib.rs:49-59 | it succeeds exactly when every entry is admissible and the winners are consistent, and then the highest layer that mentions a setting wins with its source; otherwise the first refusal in layer order is its failure |
| `ConfigurationResolution.ResolvedIsUnique` | crates/positron-config/src/lib.rs:49-59 | the layers determine the result |
| `ConfigurationResolution.SourcesAreAllowed` | crates/positron-config/src/settings.rs:146-156 | no setting is recorded with a source its policy forbids, and no secret-bearing one with an override |
| `ConfigurationResolution.PermutationsAgree` | crates/positron-config/src/source.rs:521-557 | permuting the overrides of a layer changes neither success nor result |
| `ConfigurationResolution.EnvironmentMentionsOnce` | crates/positron-config/src/source.rs:521-541 | collected environment overrides never name a setting twice |
| `ConfigurationResolution.CommandLineMentionsOnce` | crates/positron-config/src/source.rs:543-557 | neither do command-line overrides |
| `TomlText.RenderTomlBasicString` | crates/positron-config/src/rendering.rs:3-23 | the loop prints the escaped text between quotes |
| `TomlText.PrintedStringParsesBack` | crates/positron-config/src/rendering.rs:3-23 | every printed string is a basic string of TOML v1.0.0 for the string it was printed from |
| `TomlText.ContentBeforeComment` | crates/positron-config/src/source.rs:51-83 | the line is cut at the first number sign outside quotes, and an open quote without one is malformed |
| `TomlText.UnquotedEquals` | crates/positron-config/src/source.rs:120-148 | the separator is the first equals sign outside quotes |
| `TomlText.AssignmentIsRead` | crates/positron-config/src/source.rs:51-148 | on a printed assignment with a bare key the comment scanner keeps the whole line and the equals scanner finds the real separator |
| `TomlText.TrimmedIsClosed` | crates/positron-config/src/source.rs:5-22 | text that the comment scanner accepted has its quotes closed, trimmed or not |
| `TomlText.FindSeparator` | crates/positron-config/src/source.rs:3-41 | a line fails exactly on an open quote outside a comment, which only the comment scanner reports; otherwise the separator is the first unquoted equals sign of the line's trimmed statement |
| `TomlText.StatementIsUnique` | crates/positron-config/src/source.rs:5-9 | a line has one trimmed statement |
| `Decimals.EncodeU32` | crates/positron-api/src/generated.rs:717-734 | the backwards buffer emits the decimal digits |
| `Decimals.DigitsAreCanonical` | crates/positron-api/src/generated.rs:717-734 | printed decimals are canonical text of the number |
| `Decimals.CanonicalIsPrinted` | crates/positron-api/src/generated.rs:857-871 | every canonical text is what its value prints as |
| `CapabilityWire.EncodeVarint` | crates/positron-api/src/generated.rs:736-751 | the loop writes the base-128 form in at most five bytes |
| `CapabilityWire.DecodeVarint` | crates/positron-api/src/generated.rs:783-803 | the loop reads as the group-by-group reading does, overflow and truncation included |
| `CapabilityWire.VarintRoundTrip` | crates/positron-api/src/generated.rs:736-803 | a varint reads back before any suffix and consumes exactly what was written |
| `CapabilityWire.EncodeGrpc` | crates/positron-api/src/generated.rs:698-705 | the body is the request's protobuf form and fits 64 bytes |
| `CapabilityWire.DecodeGrpc` | crates/positron-api/src/generated.rs:753-781 | the cursor loop reads field by field |
| `CapabilityWire.GrpcRoundTrip` | crates/positron-api/src/generated.rs:698-803 | the protobuf form decodes to the request, with an unspecified capability made explicit |
| `CapabilityWire.EncodeHttp` | crates/positron-api/src/generated.rs:707-715 | the body is the request's JSON form and fits 64 bytes |
| `CapabilityWire.DecodeHttp` | crates/positron-api/src/generated.rs:809-855 | a body that is not UTF-8 is malformed, and any other is read member by member |
| `CapabilityWire.DecimalsAreABijection` | crates/positron-api/src/generated.rs:857-871 | up to surrounding space, a number is read from exactly the text it prints as |
| `CapabilityWire.HttpRoundTrip` | crates/positron-api/src/generated.rs:707-871 | the JSON form decodes to the request, with an unspecified capability made explicit |
| `CapabilityWire.Decode` | crates/positron-api/src/generated.rs:683-695 | a body over 64 bytes is too large, and any other is read by its transport |
| `CapabilityWire.CarryAcross` | crates/positron-api/src/generated.rs:622-695 | both transports carry every request to the same normalised request |
| `TextSplit.SplitUndoesJoin` | crates/positron-config/src/lib.rs:1364-1392 | splitting at a separator undoes joining parts that are free of it |
| `TextSplit.JoinInjective` | crates/positron-config/src/effective.rs:2099-2105 | joined text determines non-empty parts that are free of the separator |
| `Identifiers.CanonicalIdentifierText` | crates/positron-domain/src/identity.rs:239-249 | the loop prints lowercase digit pairs with hyphens at the four fixed places |
| `Identifiers.ParseInvertsPrint` | crates/positron-domain/src/identity.rs:251-328 | a text parses to sixteen bytes if and only if it is their printed text |
| `Identifiers.WireAgreesWithDomain` | crates/positron-api/src/api_keys.rs:223-235 | the wire validator accepts exactly the texts the domain parser accepts |
| `Identifiers.IdentifierRoundTrip` | crates/positron-domain/src/identity.rs:23-33 | every non-zero identifier prints to text that both accept and that parses back |
| `Identifiers.CanonicalTextInjective` | crates/positron-domain/src/identity.rs:239-249 | identifier text determines the identifier |
| `Identifiers.HexadecimalInjective` | crates/positron-config/src/effective.rs:2187-2193 | hexadecimal text determines the bytes |

## Left out

- The six API-key operations as six methods: they share one step machine and one driver. `ApiKeyAdministration.Administer` runs it against a store object nothing else touches; interleaving is modelled on values, so aliasing of the shared Catalog between threads is not captured.
- Locks, their poisoning and the resource governor's reservations: a refused reservation and an unreachable Catalog are faults of a step.
- ApiKeyReplay.RetriesGetTheReceipt: speaks from the moment the mutation is visible; after a lost acknowledgement the first retry recovers the Catalog and may answer that persistence is unavailable.
- The governance object's own codec beyond its leading bytes, and the rest of its profile, which a mutation carries over.
- Encryption, file layout, synchronisation, Catalog history limits, retention and reclamation of audit records, and API-key records of older formats.
- Listing and inspecting keys, secret formatting and zeroisation, tenant registration itself.
- Cancellation, work accounting, capacity reservations, pagination and service relationships of the trace store, and how observations are scanned into spans.
- TraceStore.Analyze: a failed reservation or a cancelled scan is not modelled; the only failure is a list that is not in strictly ascending order, or longer than a 64-bit count.
- TOML and JSON document parsing beyond the two scanners, table headers and key preflight.
- ConfigurationResolution.Candidate.Apply: the scalar parsers and domains of single values are parameters; which setting a failure is reported for is not part of it.
- Why inconsistent winners are refused: all such combinations have one failure here.
- ConfigurationDigest.DigestInput: stops at the digest's input; SHA-256 is not modelled.
- Listener role profiles, redacted rendering, generated schema, reference and example documents.
- Negotiation responses, deprecation and error texts, and the request and response wrappers of the public interface.
