# The decision logic of the Akuity Crossplane provider

The provider is a Crossplane reconciler for Argo CD and Kargo instances on the Akuity platform. Again and again
it must decide three things: is the desired state already on the server, may a write be attempted now, and does
a cached or hashed shortcut agree with the simple thing it stands for. This project models that logic and proves
what it promises.

## What is modelled

- **JSON child drift** (`JsonMatch`, `Children`, `KargoResources`): children indexed by identity, server-owned
  fields stripped, an asymmetric matcher in which empty counts as absent, the bundle digest, and the exception
  for Project descriptions that the export drops.
- **The terminal-write guard and the protocol around it** (`Reason`, `Guard`, `Fingerprint`, `AgentProtocol`,
  `KargoAgent`, `AgentNormalize`, `ClusterCreate`, `Platform`): error chains and their classification, the shared
  table of failed writes, fingerprints of payloads, the KargoAgent reconcile as a state machine in which any
  number of resources interleave, the client methods as refinements of it, and rollback of a half-finished Create.
- **Presence, projection and comparison** (`GoValues`, `Presence`, `Equate`, `EqualByPath`, `Inherit`, `Drift`,
  `DriftByPath`): Go values as typed trees, normalised by copying fields between the sides, projected onto the fields a
  user wrote, and compared up to zero values, equal quantities, ignored fields and the order of string lists.
- **Digests and aliases** (`Framing`, `Secrets`, `RepoCreds`, `KargoConfigMap`): serialisations fed to SHA-256,
  nested digests, credential payloads, ConfigMap keys with two spellings.
- **Workspace cache and manifest stream** (`WorkspaceCache`, `ManifestStream`).
- `Ordering` and `Wrappers` hold sorting, listings of sets, and the option and result types.

Where the Go code mutates, the model does too: classes with fields for the guard, the resources, the client and
the cache, and loops over maps that take keys in an arbitrary order. Each such method is proved equal to a
function on values or to a stated condition, and the properties are proved about those.

## Assumptions

- SHA-256 is an injective function into unbounded strings whose output holds no separator (`IdealHash`;
  `IdealHashExists` shows this is consistent). `json.Marshal` and deterministic protobuf give different texts for
  different values among those at hand, and JSON escapes control characters (`CanonicalEncodingExists`,
  `FaithfulEncodersExist`). `sort.Slice` returns some sorted permutation.
- Each guard method and each cache method is one atomic step.
- The managed runtime runs one reconcile per resource at a time, and calls Create, Update or Delete only after an
  error-free Observe in the same reconcile (`KargoAgent.Client.Reconcile`). Kubernetes gives every resource a UID.
- Every read of the outside world (spec, parent, Secrets, platform, clock) is an argument that may change between
  any two steps; every gateway or cluster call may fail, and a failed call may or may not have taken effect.
- go-cmp walks two trees together, applies the options at each node, and needs equal map keys and slice lengths;
  quantity parsing rejects the empty string.

## What the proofs found

- Description suppression is narrower than "filling in the description would settle the drift": when the observed
  copy has no spec at all and the desired spec holds a second, empty key, filling would settle it but the code
  reports drift. `DescriptionGapExactly` gives the exact condition, `FillingAloneIsNotEnough` the input.
- The fingerprint of a write is taken again after its manifest install failed (kargoagent.go:464), and the failure is
  recorded under that one. When the kubeconfig Secret changes in between, the payload that was sent is not held back:
  `RotationDuringInstall` is a run in which it goes out again with nothing else excusing it, `InstallBlocksExactly` and
  `InstallKeyMovesExactly` say exactly when. While the readings stay the same nothing goes out again, however many passes follow
  (`FailedUpdateThenReconcile`, `FailedCreateThenReconcile`).
- Checking a KargoAgent for drift twice can normalise twice: `NormalizeIdempotentExactly` gives the condition,
  `SecondCheckCanProject` an input.
- Matching is not transitive; `TransitiveExactly` says for which desired trees it is.
- Two NUL-separated secrets can share a digest as soon as values may hold NUL: exactly the maps with at most one key
  are safe (`DigestIdentifiesAmongBinaryExactly`).
- The cache key of the default workspace is also a possible reference. The cache is transparent exactly when no
  other workspace goes by `<default>` (`TransparentExactly`).
- The manifest loop also ends when the error channel closes, so every prefix of the chunks can be returned as a
  success (`EveryPrefixIsPossible`). A success is the whole manifest on every schedule exactly when the error channel
  carries a server error or there is nothing to collect (`SuccessIsCompleteExactly`).
- An Apply converges exactly when the platform holds no conflicting alias spellings outside the keys it manages
  (`ApplyConvergesExactly`).

## Model

| member | source | states |
|---|---|---|
| JsonMatch.MatchesIsPathwise | internal/controller/base/children/drift.go:254-324 | the recursive matcher holds iff at every path of desired the observed node is acceptable: map for non-empty map, list of the same length, equal scalar, empty or absent for an empty value |
| JsonMatch.ObjectsMatchByField | internal/controller/base/children/drift.go:256-282 | two objects match iff every desired field, taken alone, is matched or is empty and absent |
| JsonMatch.MatchesReflexive | internal/controller/base/children/drift.go:254-324 | every value matches itself |
| JsonMatch.MatchesTransitive | internal/controller/base/children/drift.go:254-324 | matching chains whenever the first tree has no empty value under a map key |
| JsonMatch.TransitivityBreaks | internal/controller/base/children/drift.go:254-324 | for any other first tree there are two trees that break the chain |
| JsonMatch.TransitiveExactly | internal/controller/base/children/drift.go:254-324 | so that side condition is exact |
| JsonMatch.UnmentionedKeysAreIgnored | internal/controller/base/children/drift.go:254-324 | setting or removing, at any depth of observed, a key desired does not mention there leaves the verdict alone |
| Children.IdentityStringInjective | internal/controller/base/children/drift.go:47-53 | well-named identities print alike iff they are equal |
| Children.IdentityStringCollidesExactly | internal/controller/base/children/drift.go:47-53 | an ill-named identity prints like a well-named one iff its printed form shows a namespace |
| Children.IdentityStringCollides | internal/controller/base/children/drift.go:47-53 | such a pair exists |
| Children.IdentityRoundTrips | internal/controller/base/children/drift.go:329-350 | a manifest that carries an identity is read back as that identity, whatever else it holds; without a name it has none |
| Children.IdentityDefaults | internal/controller/base/children/drift.go:329-350 | what a manifest leaves out of its identity is the empty string |
| Children.StripMeta | internal/controller/base/children/drift.go:373-391 | metadata without exactly the server-owned keys |
| Children.Strip | internal/controller/base/children/drift.go:352-371 | the loop drops status and server metadata and keeps the rest |
| Children.StrippedExactly | internal/controller/base/children/drift.go:352-391 | two copies strip alike iff they differ at most where the server writes |
| Children.Index | internal/controller/base/children/drift.go:85-108 | the index of a bundle, or the error of its first bad entry |
| Children.IndexStructs | internal/controller/base/children/drift.go:114-136 | the same for exported structs, skipping nil ones |
| Children.IndexedExactly | internal/controller/base/children/drift.go:85-108 | indexing succeeds on exactly the bundles whose entries decode and are named distinctly, and then holds exactly their stripped forms |
| Children.RejectedForTheFirst | internal/controller/base/children/drift.go:85-112 | a bundle that does not index is refused for its first unacceptable entry, with the reason of that entry |
| Children.IndexedStructsExactly | internal/controller/base/children/drift.go:114-140 | a group indexes iff its non-nil structs have identities, no two alike, and then holds exactly these, stripped |
| Children.IndexIgnoresOrder | internal/controller/base/children/drift.go:85-108 | permuting the entries gives the same index |
| Children.IndexIgnoresServerContent | internal/controller/base/children/drift.go:85-108 | so does any change to status or server metadata |
| Children.LookupAnyNamespace | internal/controller/base/children/drift.go:204-220 | the one child with the same apiVersion, kind and name in any namespace, none when there are several |
| Children.FallbackNeverRedirects | internal/controller/base/children/drift.go:199-220 | another child can make the fallback ambiguous but never point it elsewhere |
| Children.SortedIdentities | internal/controller/base/children/drift.go:393-402 | each identity once, in printed order |
| Children.Compare | internal/controller/base/children/drift.go:175-197 | missing and changed are sorted, disjoint, and exactly the desired ids resolved to nothing or to a child that does not match |
| Children.EmptyReportExactly | internal/controller/base/children/drift.go:156-197 | an empty report means every desired child is found and matched |
| KargoResources.HashKargoResourceIndex | internal/controller/kargoinstance/kargoinstance.go:778-801 | the digest of the entries in some order sorted by printed identity |
| KargoResources.HashKargoResources | internal/controller/kargoinstance/kargoinstance.go:767-776 | that digest of the indexed bundle, or the index error |
| KargoResources.BundleDigestUnique | internal/controller/kargoinstance/kargoinstance.go:778-801 | for well-named children the digest does not depend on the order the sort leaves ties in |
| KargoResources.BundleDigestComplete | internal/controller/kargoinstance/kargoinstance.go:767-801 | equal digests mean equal bundles, for an encoding that tells their values apart |
| KargoResources.CanonicalEncodingExists | internal/controller/kargoinstance/kargoinstance.go:767-801 | on any finite set of values there is such an encoding |
| KargoResources.DigestsExist | internal/controller/kargoinstance/kargoinstance.go:767-801 | any two bundles have digests as that statement needs them |
| KargoResources.BundleDigestIgnoresOrderAndServer | internal/controller/kargoinstance/kargoinstance.go:762-801 | permuting entries and rewriting server-owned fields keeps the digest |
| KargoResources.DescriptionGapExactly | internal/controller/kargoinstance/kargoinstance.go:907-970 | what the code checks of a changed child is exactly that only the description is missing |
| KargoResources.FillingAloneIsNotEnough | internal/controller/kargoinstance/kargoinstance.go:907-970 | a Project manifest, identified as the index wants it, that filling would settle and the code still rejects |
| KargoResources.ObservedResource | internal/controller/kargoinstance/kargoinstance.go:928-947 | resolves each id as Compare does, whatever the map order |
| KargoResources.TrimDescriptions | internal/controller/kargoinstance/kargoinstance.go:911-923 | trims the description of each changed Project, or finds a child that cannot be excused |
| KargoResources.KargoProjectDescriptionOnlyDrift | internal/controller/kargoinstance/kargoinstance.go:907-926 | true iff something is unsettled and every unsettled child is a Project lacking only its description |
| KargoResources.KargoResourcesUpToDate | internal/controller/kargoinstance/kargoinstance.go:852-905 | accepts iff all children are settled, or the digest is the last applied one and every unsettled child is excused; reports exactly the drift otherwise |
| KargoResources.ObservedAllExactly | internal/controller/kargoinstance/kargoinstance.go:859-892 | the observed index exists iff every export group indexes, and then holds exactly what is exported, each name with its child from the last group that has it |
| KargoResources.ExportedChildSettles | internal/controller/kargoinstance/kargoinstance.go:859-893 | a desired child that one group exports, matching and under its own name, and no other group names, is never reported |
| KargoResources.GroupOrderIsIgnored | internal/controller/kargoinstance/kargoinstance.go:859-892 | permuting groups that share no name gives the same observed index |
| KargoResources.AcceptedUnsettledExactly | internal/controller/kargoinstance/kargoinstance.go:893-905 | what is accepted although unsettled is a Project of the last applied bundle whose description alone the export lacks |
| KargoResources.DescriptionDriftExactly | internal/controller/kargoinstance/kargoinstance.go:845-905 | against the digest recorded for an applied bundle, drift in descriptions only is accepted iff the desired bundle is the applied one |
| KargoResources.DescriptionDriftHappens | internal/controller/kargoinstance/kargoinstance.go:845-905 | such drift exists |
| KargoResources.RecordThenCheck | internal/controller/kargoinstance/kargoinstance.go:767-905 | recording the digest of one bundle and checking another accepts iff nothing drifted, or only descriptions did and the bundles are equal |
| Reason.ClassifiersIdempotent | internal/reason/terminal.go:53-87 | classifying twice is classifying once |
| Reason.ManifestErrorsAreDecided | internal/reason/terminal.go:76-95 | a failed install is always terminal or retryable, and terminal exactly when nothing says to wait |
| Reason.RecordedApplyErrorsExactly | internal/reason/terminal.go:53-68 | an Apply error is terminal iff it was already, or is a non-retryable InvalidArgument or PermissionDenied |
| Reason.ClassificationKeepsText | internal/reason/terminal.go:17-95 | classification never changes what the user reads |
| Reason.WrapKeepsRetryable | internal/reason/retryable.go:19-91 | one more %w layer never makes a retryable error final |
| Reason.ContextKeepsRetryable | internal/reason/retryable.go:19-91 | nor do any number of layers, under either classifier |
| Reason.ContextKeepsTerminal | internal/reason/terminal.go:25-39 | wrapping keeps a terminal error terminal |
| Reason.MarksHideCodes | internal/reason/retryable.go:31-91 | behind a mark that does not unwrap only the text can make an error transient |
| Reason.MarksExactly | internal/reason/terminal.go:25-39 | a terminal mark shows everything below it, any other only itself, and neither changes the text |
| Reason.StatusVerdicts | internal/reason/terminal.go:53-95 | behind any context, what each gRPC status comes to after an Apply and after an install when no text says otherwise |
| Reason.TextVerdicts | internal/reason/retryable.go:19-91 | the texts that make an error one to wait for, whatever its status |
| Reason.GetOutcomesExactly | internal/controller/base/fetch.go:54-80 | a read says absent, provisioning, or an error exactly when the error says so |
| Reason.AbsentBehindContext | internal/controller/base/fetch.go:54-80 | and absence shows behind any context |
| Guard.SameResourceIsNotTransitive | internal/controller/base/terminal_write_guard.go:194-202 | resource sameness is not transitive |
| Guard.SameResourceExactly | internal/controller/base/terminal_write_guard.go:194-202 | with two UIDs the UIDs decide, otherwise namespace and name do, within one kind |
| Guard.TerminalWriteGuard.constructor | internal/controller/base/terminal_write_guard.go:108-110 | starts empty |
| Guard.TerminalWriteGuard.DeleteResource | internal/controller/base/terminal_write_guard.go:186-192 | removes exactly the entries of the resource |
| Guard.TerminalWriteGuard.Record | internal/controller/base/terminal_write_guard.go:114-122 | a terminal error replaces the resource's entries; any other changes nothing |
| Guard.TerminalWriteGuard.Clear | internal/controller/base/terminal_write_guard.go:125-132 | forgets the resource |
| Guard.TerminalWriteGuard.Has | internal/controller/base/terminal_write_guard.go:137-149 | whether any entry is of the resource |
| Guard.TerminalWriteGuard.Suppress | internal/controller/base/terminal_write_guard.go:156-184 | the stored error iff the same payload is stored and nothing is being deleted; otherwise forgets the resource |
| Guard.ReachableIsUnrelated | internal/controller/base/terminal_write_guard.go:97-206 | in every reachable table no two keys stand for one resource, and all errors are terminal |
| Guard.StepRepresents | internal/controller/base/terminal_write_guard.go:114-192 | with UIDs, each operation is one step of a map from resource to its last terminal failure |
| Guard.GuardRefinesFailures | internal/controller/base/terminal_write_guard.go:97-206 | so every run refines that map |
| Guard.AnswersAgree | internal/controller/base/terminal_write_guard.go:137-184 | lookups and suppression answer as the map does |
| Guard.OthersUntouched | internal/controller/base/terminal_write_guard.go:114-192 | an operation leaves every other resource's failure alone |
| Fingerprint.NewTerminalWriteKey | internal/controller/base/terminal_write_guard.go:49-83 | the loop encodes and hashes the framed parts in order, and fails exactly when a part does not encode |
| Fingerprint.FingerprintIsThePayload | internal/controller/base/terminal_write_guard.go:49-83 | two writes share a fingerprint iff they carry the same payload to the same cluster |
| Fingerprint.FaithfulEncodersExist | internal/controller/base/terminal_write_guard.go:65-83 | encoders that tell values apart and keep JSON on one line exist |
| Fingerprint.TargetTextExactly | internal/clients/kube/targetapply.go:49-86 | the cluster text is equal iff the target is: none, the own cluster, or the same kubeconfig Secret read alike |
| AgentProtocol.BlockedStaysBlocked | internal/controller/kargoagent/kargoagent.go:308-399 | a resource blocked on a payload stays blocked under every step, its own or another's, that is not an excuse |
| AgentProtocol.NoRepeatWithoutExcuse | internal/controller/kargoagent/kargoagent.go:308-470 | over every interleaving, a payload that failed terminally (not built, not accepted, or not installed after it was sent), or was charged with a failed install, is not sent again unless Observe, or the fingerprint taken after the install, saw another payload or none, or the resource was being deleted |
| AgentProtocol.InstallBlocksExactly | internal/controller/kargoagent/kargoagent.go:455-469 | after a terminally failed install the sent payload is blocked iff the fingerprint taken afterwards is still its own |
| AgentProtocol.InstallingHoldsNothing | internal/controller/kargoagent/kargoagent.go:434-455 | while a resource installs nothing is remembered for it |
| AgentProtocol.RotationDuringInstall | internal/controller/kargoagent/kargoagent.go:455-469 | the install excuse is needed: a run in which it is the only one and the sent payload goes out again |
| AgentProtocol.SuppressionIsEarned | internal/controller/kargoagent/kargoagent.go:320-331 | Observe holds a write back only when that payload failed terminally, or was charged with a failed install, earlier in the run |
| AgentProtocol.HeldMeansFailed | internal/controller/base/terminal_write_guard.go:112-122 | everything remembered for a resource failed terminally or was charged with a failed install |
| AgentProtocol.KeysCarryUIDs | internal/controller/kargoagent/kargoagent.go:600-607 | every key a KargoAgent leaves behind carries its UID |
| AgentProtocol.AnotherPayloadForgets | internal/controller/kargoagent/kargoagent.go:320-331 | an Observe that computes another payload forgets the failure |
| AgentProtocol.ForgottenIsSentAgain | internal/controller/kargoagent/kargoagent.go:387-436 | and then the failed payload may be sent again, so the exception is real |
| AgentProtocol.PathsAreRuns | internal/controller/kargoagent/kargoagent.go:308-545 | a reconcile nothing interrupts extends any run |
| KargoAgent.ObserveAndWriteAgree | internal/controller/kargoagent/kargoagent.go:308-422 | what a write stores in the spec does not change what Observe asks about |
| KargoAgent.RequestCarriesExactly | internal/controller/kargoagent/kargoagent.go:423-427 | a request is built iff there is something to send that marshals, and carries just that: the data themselves, or for a custom size a large agent with the generated patches |
| KargoAgent.ParentReachesRequestExactly | internal/controller/kargoagent/kargoagent.go:413-422 | two parent workspaces give every codec the same request iff one is pinned or they agree |
| KargoAgent.SendsExactly | internal/controller/kargoagent/kargoagent.go:407-429 | a write sends iff the instance is known and its parameters build and have a fingerprint |
| KargoAgent.FirstNamedExactly | internal/controller/kargoagent/kargoagent.go:628-663 | the search of an export ends at the first entry that is unreadable or carries the name |
| KargoAgent.ObservedExactly | internal/controller/kargoagent/kargoagent.go:333-398 | when an unguarded agent is seen as absent, provisioning, failing, drifted or up to date |
| KargoAgent.CreateSendsOnce | internal/controller/kargoagent/kargoagent.go:438-474 | a Create sends first and once |
| KargoAgent.CreateCallsExactly | internal/controller/kargoagent/kargoagent.go:438-501 | which calls a Create makes: manifests only where the row landed, the row delete last and exactly when an install failed, the strip only when asked to |
| KargoAgent.DeleteCallsExactly | internal/controller/kargoagent/kargoagent.go:508-545 | which calls a Delete makes: none without external name or instance, the strip exactly when asked to and before the row, the row exactly when nothing before it failed |
| KargoAgent.ConnectedAgentExactly | internal/controller/kargoagent/kargoagent.go:713-724 | an error speaks of a connected agent iff its text says both words in any case |
| KargoAgent.SameFingerprintSamePayload | internal/controller/kargoagent/kargoagent.go:600-607 | two parameter sets share a fingerprint iff they send the same request to the same cluster, or fail to build alike |
| KargoAgent.InstallKeyMovesExactly | internal/controller/kargoagent/kargoagent.go:455-469 | for unchanged parameters the fingerprint moves iff the kubeconfig comes from a Secret whose reading changed |
| KargoAgent.EchoIsObserved | internal/controller/kargoagent/kargoagent.go:355-398 | a platform that shows what was sent, up to every clamp, is observed as up to date |
| KargoAgent.Client.ComputeKey | internal/controller/kargoagent/kargoagent.go:600-607 | the key of the request, or of the build error, and the target cluster; none when a part does not encode |
| KargoAgent.Client.SuppressTerminalWrite | internal/controller/kargoagent/kargoagent.go:589-598 | the remembered error iff this payload failed and nothing is being deleted; a step of the protocol |
| KargoAgent.Client.Observe | internal/controller/kargoagent/kargoagent.go:308-399 | a path of the protocol ending where its answer says; a remembered payload is answered with its error, an unguarded resource with what the Get, the export and the drift check say |
| KargoAgent.Client.ObserveRemote | internal/controller/kargoagent/kargoagent.go:333-399 | the part after the first guard check, from read through export and comparison to verdict |
| KargoAgent.Client.ExportedAgentSpec | internal/controller/kargoagent/kargoagent.go:628-663 | the first exported agent of the name, the Get where there is none or no export, an error on an unreadable entry before it |
| KargoAgent.Client.ClearTerminalWrite | internal/controller/kargoagent/kargoagent.go:609-619 | an up-to-date resource is forgotten when a key can be computed |
| KargoAgent.Client.Apply | internal/controller/kargoagent/kargoagent.go:407-436 | fills in only an empty instance ID and an empty workspace; sends exactly the effective payload under its own fingerprint, or nothing; success forgets, failure records what is terminal |
| KargoAgent.Client.Deliver | internal/controller/kargoagent/kargoagent.go:427-435 | from built request to the guard's bookkeeping |
| KargoAgent.Client.RecordTerminalWrite | internal/controller/base/external.go:69-81 | one recording step |
| KargoAgent.Client.InstallAgentManifests | internal/controller/kargoagent/kargoagent.go:568-578 | fetches, then installs or removes; fails iff either call does |
| KargoAgent.Client.RollbackCreatedAgent | internal/controller/kargoagent/kargoagent.go:482-501 | strips when asked to, then attempts the row delete whatever happened before |
| KargoAgent.Client.Install | internal/controller/kargoagent/kargoagent.go:455-470 | installs, or rolls back and records a classified error under the current fingerprint |
| KargoAgent.Client.Create | internal/controller/kargoagent/kargoagent.go:438-474 | success iff row applied and manifests installed; makes exactly the calls of CreateCalls, ending with the rollback when what landed failed; says what the guard holds after every outcome |
| KargoAgent.Client.Update | internal/controller/kargoagent/kargoagent.go:503-506 | one write, no install; success forgets, failure records what is terminal under the fingerprint of what was sent |
| KargoAgent.Client.Delete | internal/controller/kargoagent/kargoagent.go:508-545 | forgets the resource first; makes exactly the calls of DeleteCalls; success iff there was nothing to delete or the row delete was made and accepted; without the removal flag what is installed stays; a connected agent is retryable |
| KargoAgent.Client.Reconcile | internal/controller/kargoagent/kargoagent.go:308-545 | one pass is a path back to idle; a remembered payload gets its error and touches nothing remote; otherwise the write the platform's state calls for |
| KargoAgent.Client.UpdateThenReconcile | internal/controller/kargoagent/kargoagent.go:308-506 | after an Update that went through, against an echo of what was sent, the next pass sends nothing |
| KargoAgent.FailureHoldsBack | internal/controller/kargoagent/kargoagent.go:308-436 | recording a terminal failure holds the next pass back under the readings it was charged with |
| KargoAgent.Client.ReconcileHeldBack | internal/controller/kargoagent/kargoagent.go:308-353 | a pass that is held back returns the error that holds it back, sends nothing, and stays held back |
| KargoAgent.Client.FailedUpdateThenReconcile | internal/controller/kargoagent/kargoagent.go:308-506 | after an Update that failed terminally every pass with the same lookup, workspace and Secret readings returns its error and sends nothing |
| KargoAgent.Client.FailedCreateThenReconcile | internal/controller/kargoagent/kargoagent.go:308-506 | the same after a Create, with the Secret as read when the failure was charged and a fingerprint to charge it to |
| AgentNormalize.Normalize | internal/controller/kargoagent/kargoagent.go:101-168 | the in-place helpers, in order, equal the normalised value and leave observed alone |
| AgentNormalize.AbsorbScalarDefaults | internal/controller/kargoagent/kargoagent.go:129-144 | empty scalars inherit |
| AgentNormalize.AbsorbServerClamps | internal/controller/kargoagent/kargoagent.go:189-202 | maintenance is always adopted, namespace and version on managed agents |
| AgentNormalize.AbsorbSizeAndRender | internal/controller/kargoagent/kargoagent.go:113-168 | unknown sizes, equivalent kustomizations and omitted optional fields inherit |
| AgentNormalize.ProjectCustomSize | internal/controller/kargoagent/custom_size.go:30-57 | a custom size, however its letters are cased or folded, becomes large with patches generated for the named agent; refused in exactly the listed cases and then left as written |
| AgentNormalize.CustomSpelled | internal/controller/kargoagent/custom_size.go:34-39 | which spellings of a size are custom |
| AgentNormalize.ForgivenExactly | internal/controller/kargoagent/kargoagent.go:101-211 | per field, exactly when a difference is forgiven; sizes and kustomizations as they are sent, custom sizes included |
| AgentNormalize.SizesExactly | internal/controller/kargoagent/kargoagent.go:146-177 | a pinned small, medium, large or auto stays visible as drift; any other size but none and custom is whatever the platform shows |
| AgentNormalize.NormalizeIdempotentExactly | internal/controller/kargoagent/kargoagent.go:101-211 | normalising again changes nothing except exactly when the first pass leaves a custom size the second can project |
| AgentNormalize.SecondCheckCanProject | internal/controller/kargoagent/kargoagent.go:101-211 | that exception has an input |
| AgentNormalize.NormalizeIdempotent | internal/controller/kargoagent/kargoagent.go:101-211 | so never when the platform reports a non-custom size |
| AgentNormalize.EchoIsForgiven | internal/controller/kargoagent/kargoagent.go:101-211 | the normalised desired side is the observed side iff that is an echo of what was sent, up to every clamp |
| AgentNormalize.EvaluateDrift | internal/controller/kargoagent/kargoagent.go:380-385 | normalises a copy in place and compares |
| AgentNormalize.ComparedByField | internal/controller/kargoagent/kargoagent.go:380-385 | two parameter sets compare equal iff every field does: texts up to quantities, flags up to leaving false out |
| AgentNormalize.UpToDateExactly | internal/controller/kargoagent/kargoagent.go:101-211 | when an agent is up to date, field by field of what the user wrote |
| AgentNormalize.EchoIsUpToDate | internal/controller/kargoagent/kargoagent.go:380-398 | so an echo is up to date |
| ClusterCreate.Client.Create | internal/controller/cluster/cluster.go:237-295 | success iff row, maintenance and manifests all went through; makes exactly the calls of CreateCalls; a terminal error is what the guard then holds, under the fingerprint of the very request that was sent |
| ClusterCreate.AfterLandingExactly | internal/controller/cluster/cluster.go:259-328 | which calls follow a landed row: the wish iff the platform does not report it, manifests only once it is settled, the row delete last and exactly on failure, the strip only when asked to |
| ClusterCreate.Client.ClusterTerminalWriteKey | internal/controller/cluster/cluster.go:458-465 | the key of the request, or of the build error, and the target cluster |
| ClusterCreate.Client.Complete | internal/controller/cluster/cluster.go:259-295 | everything after the row has landed |
| ClusterCreate.Client.InstallClusterManifests | internal/controller/cluster/cluster.go:274-291 | install, or roll back and record a decided error |
| ClusterCreate.Client.RollbackCreatedCluster | internal/controller/cluster/cluster.go:305-328 | strips when asked to and fetchable, then attempts the row delete |
| ClusterCreate.Client.SyncMaintenanceMode | internal/controller/cluster/cluster.go:367-388 | silent users send nothing, unreadable expiries are terminal, a reported wish is not sent again |
| ClusterCreate.MaintenanceModeAlreadyApplied | internal/controller/cluster/cluster.go:396-415 | true iff the platform reports the mode and the same instant, or none on both sides |
| ClusterCreate.WishesExactly | internal/controller/cluster/cluster.go:367-388 | only fields left out altogether ask for nothing, and only text that is no instant is unreadable |
| ClusterCreate.ReportIsOfOneWish | internal/controller/cluster/cluster.go:396-415 | a report is of one mode and one instant |
| ClusterCreate.RespeltExpiryIsApplied | internal/controller/cluster/cluster.go:367-415 | respelling a reported expiry is the same wish, already met |
| ClusterCreate.EchoSettlesExactly | internal/controller/cluster/cluster.go:367-415 | a platform that echoes the fields settles the wish iff a mode is set and the expiry is not an empty string |
| GoValues.ZeroHasType | internal/controller/base/presence.go:110-118 | the zero value of a type has that type |
| Presence.PresenceFromMap | internal/controller/base/presence.go:86-96 | the loop builds the presence tree of the object |
| Presence.PresenceFromValue | internal/controller/base/presence.go:98-103 | and of any value: objects recurse, everything else is owned whole |
| Presence.PathsAreWritten | internal/controller/base/presence.go:86-103 | the tree's paths are exactly the key chains the user wrote |
| Presence.ProjectValue | internal/controller/base/presence.go:125-162 | the recursive dispatch equals the projection function |
| Presence.ProjectStruct | internal/controller/base/presence.go:164-192 | owned fields projected, all others zero |
| Presence.ProjectMap | internal/controller/base/presence.go:194-213 | owned keys that are present, projected; no others |
| Presence.ProjectHasType | internal/controller/base/presence.go:110-213 | projection keeps the type |
| Presence.ProjectIdempotent | internal/controller/base/presence.go:110-213 | projecting twice is projecting once |
| Presence.ProjectKeepsLook | internal/controller/base/presence.go:110-213 | projection loses nothing at any path of the presence tree |
| Presence.ProjectionsEqualExactly | internal/controller/base/presence.go:110-213 | two values of one type have equal projections iff they agree at every path of the presence tree |
| Presence.OwnPresenceIsIdentity | internal/controller/base/presence.go:86-213 | a JSON value projected by its own fields is itself |
| Equate.ZeroIsZero | internal/utils/cmp/option.go:37-74 | the zero value of every type is zero |
| Equate.EqualReflexive | internal/utils/cmp/option.go:11-35 | the comparison is reflexive |
| Equate.EqualSymmetric | internal/utils/cmp/option.go:11-35 | symmetric |
| Equate.ZeroIsShared | internal/utils/cmp/option.go:11-74 | compared-equal values are zero together, at every depth |
| Equate.EqualTransitive | internal/utils/cmp/option.go:11-74 | hence transitive: an equivalence |
| Equate.ZeroEqualsOnlyZero | internal/utils/cmp/option.go:11-74 | a zero value equals exactly the zero values |
| Equate.EmptyQuantityBreaksIt | internal/utils/cmp/option.go:21-35 | it would not be one if the empty string were a quantity |
| EqualByPath.IsZeroByPath | internal/utils/cmp/option.go:37-74 | a value is zero iff no node in it has content |
| EqualByPath.EqualExactly | internal/utils/cmp/option.go:11-74 | two values compare equal iff at every node they are zero together on the way, or both lack it, or are the same scalar, one quantity, or containers of one shape |
| Inherit.RulesKeepAgreement | internal/controller/kargoinstance/kargoinstance.go:126-177 | any list of copying rules takes pairs alike in the owned fields to pairs alike in them |
| Inherit.RulesKeepEcho | internal/controller/kargoinstance/kargoinstance.go:126-177 | and an echo of the owned fields to an echo |
| Inherit.KargoInstanceRulesAreTyped | internal/controller/kargoinstance/kargoinstance.go:126-177 | the KargoInstance rules copy fields of matching types |
| Inherit.UnsetExactly | internal/controller/kargoinstance/kargoinstance.go:126-177 | what counts as not set: exactly the zero value, of the kinds a rule may copy |
| Inherit.RulesActAlone | internal/controller/kargoinstance/kargoinstance.go:126-177 | where no field lies within another, each rule does what it would do alone, whatever the order |
| Inherit.KargoInstanceInherits | internal/controller/kargoinstance/kargoinstance.go:126-177 | a KargoInstance inherits exactly five fields while they are not set, lends the platform its workspace, and moves nothing else |
| Drift.UpToDate | internal/controller/base/drift.go:62-87 | overwrites both sides with what is compared; true iff they are in sync under the options and every side check agrees, otherwise the first refusal decides |
| DriftByPath.SameExactly | internal/controller/base/drift.go:71-75 | the comparison says yes iff, at every node outside the ignored fields, the two sides are zero together on the way, alike, or both without it |
| DriftByPath.IgnoredFieldsNeverDecide | internal/controller/kargoinstance/kargoinstance.go:111-115 | values that differ only in ignored fields are always the same, and changing only those changes no comparison |
| DriftByPath.OwnedNodesInStep | internal/controller/base/drift.go:62-75 | in sync means that every node the user wrote whole, outside the ignored fields, is nothing on both sides or equal |
| DriftByPath.OwnedTextIsReported | internal/controller/base/drift.go:62-75 | so an owned text that differs and is no equal quantity is always drift |
| DriftByPath.CopyingTextIsReported | internal/controller/base/drift.go:62-75 | also under a normaliser that fills unset fields |
| DriftByPath.KargoInstanceTextIsReported | internal/controller/kargoinstance/kargoinstance.go:111-178 | for a KargoInstance only the three fields compared elsewhere, and texts empty on one side, are exempt |
| Drift.UnownedFieldsAreIgnored | internal/controller/base/drift.go:40-69 | whatever the normaliser, two observed states are compared alike iff the normalised pairs agree at every owned path |
| Drift.CopyingIgnoresUnowned | internal/controller/base/drift.go:40-69 | a normaliser that only copies fields keeps that agreement, so unowned observed fields never decide |
| Drift.EchoIsInSync | internal/controller/base/drift.go:36-75 | and a platform that shows every owned field as written is in sync |
| Drift.KargoInstanceDrift | internal/controller/kargoinstance/kargoinstance.go:111-178 | for the KargoInstance recipe only what the user wrote decides, and an echo of it is in sync |
| Drift.UnorderedExactly | internal/controller/kargoinstance/kargoinstance.go:116-124 | sorting every list of strings forgets their order and nothing else |
| Drift.OrderIsIgnored | internal/controller/kargoinstance/kargoinstance.go:116-124 | so the platform reordering strings changes no verdict |
| Drift.InSyncIsAnEquivalence | internal/controller/base/drift.go:62-75 | being in sync chains through a value whose normalised forms compare equal; without a normaliser it is symmetric and transitive |
| Drift.VerdictRespectsEquality | internal/controller/base/drift.go:62-75 | observed states that compare equal get the same verdict |
| Framing.FramesInjective | internal/secrets/resolve.go:160-177 | framed entries decode uniquely when no key holds the separator and no value the terminator |
| Framing.SerialisedInjective | internal/secrets/resolve.go:160-177 | sorted serialisations are equal iff the maps are |
| Framing.Serialise | internal/secrets/resolve.go:164-175 | the loop writes the framed entries in sorted key order, whatever the map order |
| Framing.HashFramed | internal/secrets/resolve.go:160-177 | empty for no data, else the hash of that serialisation |
| Framing.FramedDigestComplete | internal/secrets/resolve.go:160-177 | so digests are equal iff the maps are |
| Framing.IdealHashExists | internal/secrets/resolve.go:160-177 | the idealisation of the hash is consistent |
| Secrets.ResolveNamed | internal/secrets/resolve.go:132-152 | succeeds iff every reference is valid, unique by name and resolvable; then holds exactly those; otherwise the error is that of the first reference refused |
| Secrets.ResolvesExactly | internal/secrets/resolve.go:92-117 | a reference resolves to exactly the non-empty Secret of its own namespace and name, and fails for one reason |
| Secrets.DnsLabelExactly | internal/controller/kargoinstance/kargoinstance.go:98-99 | what a label may look like |
| Secrets.RepoCredentialNameExactly | internal/secrets/resolve.go:132-152 | a repository credential name is the prefix before a label |
| Secrets.Hash | internal/secrets/resolve.go:160-177 | the digest of a secret's data |
| Secrets.MapDigestComplete | internal/secrets/resolve.go:160-177 | NUL-free data have equal digests iff equal |
| Secrets.HashSecret | internal/secrets/resolve.go:76-85 | the digest over namespace, name and data digest |
| Secrets.SecretDigestComplete | internal/secrets/resolve.go:76-85 | equal iff namespace, name and data are |
| Secrets.HashNamedResolved | internal/secrets/resolve.go:182-199 | the digest over each name's secret digest |
| Secrets.NamedDigestComplete | internal/secrets/resolve.go:182-199 | equal iff the same names hold the same secrets |
| Secrets.HashInstance | internal/controller/instance/convert.go:78-93 | the nested digest over the six groups, empty when all are |
| Secrets.InstanceDigestComplete | internal/controller/instance/convert.go:78-93 | equal iff every Secret's namespace, name and data are equal |
| Secrets.MergeCollides | internal/secrets/resolve.go:160-177 | every NUL-free map of two or more keys shares its bytes with a map whose value holds NUL |
| Secrets.SingleKeyIsUnambiguous | internal/secrets/resolve.go:160-177 | a map of one key shares them with none |
| Secrets.DigestIdentifiesAmongBinaryExactly | internal/secrets/resolve.go:160-177 | among binary values a digest identifies a NUL-free map iff it has at most one key |
| Secrets.NamedInstanceSecretsToPB | internal/controller/instance/convert.go:168-192 | one payload per name with data, strictly in name order |
| RepoCreds.KeyInjective | internal/controller/kargoinstance/kargoinstance.go:1186-1224 | joined keys of slash-free slots are equal iff namespace and slot are |
| RepoCreds.ResolveKargoRepoCreds | internal/controller/kargoinstance/kargoinstance.go:1186-1224 | succeeds iff every reference resolves alone and no two claim one place |
| RepoCreds.ResolvesCredExactly | internal/controller/kargoinstance/kargoinstance.go:1186-1240 | a reference resolves to its own Secret in its own slot and project, under the pinned type or else the labelled one, and only with well-formed names and a known type |
| RepoCreds.KargoHashRepoCreds | internal/controller/kargoinstance/kargoinstance.go:1117-1134 | the digest over the keyed per-credential digests |
| RepoCreds.PerCredKeepsAll | internal/controller/kargoinstance/kargoinstance.go:1117-1134 | with distinct places no entry overwrites another |
| RepoCreds.CredDigestComplete | internal/controller/kargoinstance/kargoinstance.go:1117-1134 | one credential's digest covers every field of it |
| RepoCreds.CredsDigestComplete | internal/controller/kargoinstance/kargoinstance.go:1117-1134 | under an ideal hash and for data without NUL, digests are equal iff the credentials are, up to order |
| RepoCreds.HashKargoSecrets | internal/controller/kargoinstance/kargoinstance.go:1092-1111 | the nested Kargo digest, empty when nothing is resolved |
| RepoCreds.KargoDigestComplete | internal/controller/kargoinstance/kargoinstance.go:1092-1134 | equal iff the resolved secrets are |
| RepoCreds.KargoRepoCredsToPB | internal/controller/kargoinstance/kargoinstance.go:1247-1286 | a sorted permutation of the credentials that carry data |
| RepoCreds.PayloadIsStrict | internal/controller/kargoinstance/kargoinstance.go:1247-1286 | of credentials in distinct places: one entry for each that carries data, strictly ordered by namespace and name |
| RepoCreds.PayloadIgnoresOrder | internal/controller/kargoinstance/kargoinstance.go:1247-1286 | permuted credentials have the same payload |
| RepoCreds.ResolutionPermutes | internal/controller/kargoinstance/kargoinstance.go:1186-1224 | permuted references resolve to permuted credentials |
| RepoCreds.ReferenceOrderIsIgnored | internal/controller/kargoinstance/kargoinstance.go:1117-1286 | for every order of the references: resolution still succeeds, and digest (under any hash, for any data) and payload are the same |
| KargoConfigMap.CanonicalKargoConfigMap | internal/controller/kargoinstance/kargoinstance.go:1425-1441 | the canonical respelling, failing iff two spellings of a key disagree |
| KargoConfigMap.CanonicalIdempotent | internal/controller/kargoinstance/kargoinstance.go:1425-1441 | canonical data is its own canonical form |
| KargoConfigMap.AliasesExactly | internal/controller/kargoinstance/kargoinstance.go:1425-1441 | which keys have another spelling, and what they become |
| KargoConfigMap.HashKargoConfigMap | internal/controller/kargoinstance/kargoinstance.go:739-760 | the digest of the canonical form, or of the data as they are when spellings conflict |
| KargoConfigMap.ConfigMapDigestComplete | internal/controller/kargoinstance/kargoinstance.go:739-760 | equal iff the canonical contents are |
| KargoConfigMap.ConflictingDigestComplete | internal/controller/kargoinstance/kargoinstance.go:739-760 | conflicting data are hashed as they are, and no two such digests meet |
| KargoConfigMap.ExtractKargoConfigMapData | internal/controller/kargoinstance/kargoinstance.go:809-843 | the exported map as text, absent when the export omits it, an error exactly on an unprintable value |
| KargoConfigMap.ShownExactly | internal/controller/kargoinstance/kargoinstance.go:809-843 | a value shows as a text iff it is that text, or the boolean or null it reads as |
| KargoConfigMap.RetypedExportIsRead | internal/controller/kargoinstance/kargoinstance.go:809-843 | an export that gives every value back in one of these forms is read as the applied data |
| KargoConfigMap.KargoConfigMapUpToDate | internal/controller/kargoinstance/kargoinstance.go:704-733 | from the export: accepts iff desired is contained in what it shows, or, when it shows none, the digest is the last applied one; errors exactly on conflicts and unreadable exports |
| KargoConfigMap.ContainedExactly | internal/controller/kargoinstance/kargoinstance.go:704-733 | contained means: every desired entry is there, value for value, under one spelling or the other |
| KargoConfigMap.UndecidableExactly | internal/controller/kargoinstance/kargoinstance.go:704-733 | the errors, in terms of the desired data and the exported JSON |
| KargoConfigMap.RetypedExportIsAccepted | internal/controller/kargoinstance/kargoinstance.go:704-733 | an export that only retypes values is accepted |
| KargoConfigMap.KargoConfigMapApplyData | internal/controller/kargoinstance/kargoinstance.go:1404-1423 | sets every canonical key, nulls its other spelling, and nothing else; errors exactly on conflicts |
| KargoConfigMap.ApplyConvergesExactly | internal/controller/kargoinstance/kargoinstance.go:704-733 | after merging the payload (section 2 of RFC 7396) the check accepts iff the platform holds no foreign alias conflict |
| KargoConfigMap.OmittedExportExactly | internal/controller/kargoinstance/kargoinstance.go:704-733 | with no export, a just-recorded digest accepts exactly the same canonical content |
| KargoConfigMap.RespellingIsNoChange | internal/controller/kargoinstance/kargoinstance.go:1362-1441 | moving a value between spellings of its key changes neither content nor digest |
| WorkspaceCache.ResolveWorkspace | internal/clients/akuity/client.go:1043-1076 | one scan finds the default, else the ID match, else the first name match |
| WorkspaceCache.FindsExactly | internal/clients/akuity/client.go:1043-1076 | which workspace a reference finds: the first default, the first of that ID, or where no ID matches the first of that name |
| WorkspaceCache.ReferencesResolve | internal/clients/akuity/client.go:237-254 | a workspace is found by its ID, by its unambiguous name, and the only default by no reference |
| WorkspaceCache.ReferencesFail | internal/clients/akuity/client.go:237-254 | and when a reference fails, and how |
| WorkspaceCache.InstanceLookups | internal/clients/akuity/client.go:256-343 | an instance stands for the workspace it names, or for the default one |
| WorkspaceCache.ApplyLookups | internal/clients/akuity/client.go:276-367 | what an Apply is routed to: a pinned workspace, a target by ID, or by name with the default as fallback |
| WorkspaceCache.NameLookupIsIDLookup | internal/clients/akuity/client.go:276-367 | a target by name is routed as by the ID of the instance called so |
| WorkspaceCache.GetKargoInstanceByID | internal/clients/akuity/client.go:715-734 | lists and filters for the ID |
| WorkspaceCache.Client.ResolveWorkspaceID | internal/clients/akuity/client.go:237-254 | cached answer, or the platform's, remembered |
| WorkspaceCache.Client.SetArgoInstance | internal/clients/akuity/client.go:178-185 | remembers unless the ID is empty |
| WorkspaceCache.Client.SetKargoInstance | internal/clients/akuity/client.go:197-204 | remembers unless the ID is empty |
| WorkspaceCache.Client.ArgoWorkspaceIDForInstance | internal/clients/akuity/client.go:256-274 | the instance's workspace or the default, remembered under the ID |
| WorkspaceCache.Client.ArgoWorkspaceIDForApply | internal/clients/akuity/client.go:276-298 | by explicit workspace, by ID, or by name with the default as fallback |
| WorkspaceCache.Client.KargoWorkspaceIDForInstance | internal/clients/akuity/client.go:300-318 | as for Argo |
| WorkspaceCache.Client.KargoWorkspaceIDForRef | internal/clients/akuity/client.go:320-343 | by ID, else by name, remembered under the reference and the ID |
| WorkspaceCache.Client.KargoWorkspaceIDForApply | internal/clients/akuity/client.go:345-367 | as for Argo |
| WorkspaceCache.FoundByNameIsFoundByID | internal/clients/akuity/client.go:320-343 | with unique IDs, storing a name lookup under the instance's ID is sound |
| WorkspaceCache.CachedRight | internal/clients/akuity/client.go:142-367 | every lookup keeps the cache coherent and answers as the platform would |
| WorkspaceCache.CacheIsTransparent | internal/clients/akuity/client.go:142-367 | after any lookups under any outages the cached answer is the uncached one whenever that succeeds, unless the literal default key names another workspace and was asked for |
| WorkspaceCache.TransparentExactly | internal/clients/akuity/client.go:142-166 | and that exception is exact |
| WorkspaceCache.SecondLookupIsLocal | internal/clients/akuity/client.go:237-343 | a lookup that succeeded is answered again with the platform unreachable |
| WorkspaceCache.NameLookupServesID | internal/clients/akuity/client.go:276-367 | and a lookup by name that found an instance answers the lookup by its ID with the platform unreachable |
| ManifestStream.GetManifestsFromResponse | internal/clients/akuity/client.go:1086-1111 | the select loop equals the step function over any schedule |
| ManifestStream.CollectByCount | internal/clients/akuity/client.go:1086-1111 | how and with what the loop ends, by counting the reads of the schedule |
| ManifestStream.ReadErrorIsReturned | internal/clients/akuity/client.go:1097-1103 | a server error that is read before a channel is found closed is what the loop returns |
| ManifestStream.WaitingExactly | internal/clients/akuity/client.go:1086-1111 | the loop is left waiting iff the schedule ran out with no channel found closed and only nil errors read |
| ManifestStream.ResultIsAPrefix | internal/clients/akuity/client.go:1086-1111 | a result without error is the first chunks in order, all of them when the responses ended the loop |
| ManifestStream.ErrorsAreReported | internal/clients/akuity/client.go:1097-1103 | an error result is one of the server errors on the channel, and ends the loop |
| ManifestStream.EveryPrefixIsPossible | internal/clients/akuity/client.go:1086-1111 | with no server error on its way, however many nil errors there are, every prefix can be returned as a success |
| ManifestStream.ErrorHoldsTheLoop | internal/clients/akuity/client.go:1086-1111 | with a server error on its way the errors never end the loop without it |
| ManifestStream.SuccessIsCompleteExactly | internal/clients/akuity/client.go:1086-1111 | over every schedule a success carries all chunks iff a server error is on its way or the chunks are empty |

## Left out

- The gateway RPCs, authentication, retries and metrics: only their outcomes appear.
- Applying manifests to a cluster: succeeds, fails, or fails having taken effect.
- Conditions, health, logging, events and generation bookkeeping of the managed resources.
- The field-copying converters and the generated types; a request is what an uninterpreted builder returns.
- YAML, JSON, protobuf and RFC 3339 text: models start from decoded trees, encoders and parsers are parameters.
- Generating the patches of a custom agent size, and YAML equivalence of kustomizations: parameters of `AgentNormalize`.
- The Instance normaliser as a whole (internal/controller/instance/instance.go:416-600): it also rewrites ConfigMap texts
  and adopts a pair of host names, which is more than copying fields; `Drift.UnownedFieldsAreIgnored` covers any normaliser.
- Finding spec.forProvider in the raw object, and the fallback to the typed one (internal/controller/base/presence.go:49-84).
- A nil guard and a nil cache, which the code tolerates.
- A process restart or panic, which empties the guard or skips a recording: runs start with an empty table, never lose it,
  and record every failure they classify.
- The no-repeat property for Clusters: a Cluster's early check builds its key before late initialisation
  (internal/controller/cluster/cluster.go:108-142) and Update builds it after, so the keys of an Update may differ.
- Update and Delete of Clusters, and the Instance and KargoInstance clients around the drift checks.
- Embedded pointer structs, fields without a JSON name, and recursive Go types in `GoValues`; no modelled type uses
  the first, the second are zeroed by projection, the third would only need deeper trees.
- Types with their own Equal method and floating-point NaN in `Equate`; numbers are reals.
- Aliasing between a cloned JSON tree and its original: trees are values here.
- Secret resolution by in-place copies of byte maps (internal/secrets/resolve.go:201-222): values are shared safely.
