# Verified models of the SDK's bridge to the private runtime

The SDK starts a private runtime as a child process and talks to it. The logic that can go wrong in that bridge is
modelled here in Dafny, and its promises are proved for every input, every run and every interleaving. Check
everything with `dafny verify dfyconfig.toml`.

| files | part of the SDK |
|---|---|
| `BridgeTables`, `BridgeProtocol`, `BridgeInvariant`, `BridgeSafety`, `BridgeReplies`, `BridgeProgress` | admission, clean and close of scenario instances: the tables as a class changed in place, and the two-lock protocol as a transition system with any number of threads and keys |
| `RegistryClose`, `RegistryIdentity`, `RegistryProgress` | the callback registry over any number of such states, with concurrent registrations and closers |
| `ConsumeSession`, `ConsumeReports` | the queue between a consumer and its pollers, with its one-slot wake channel, and what polls report |
| `Redaction`, `RedactingCopy` | the streaming redactor of child output, against leftmost replacement over the whole stream |
| `Settings` | the recursive check of settings over a heap with sharing and cycles |
| `ManifestPayload`, `ManifestLayout`, `ManifestVerify`, `ManifestWitness`, `RuntimeCache` | the signed manifest: its encoding, its acceptance, and the cache that installs and resolves the runtime |
| `JsonPath`, `JsonPathMeaning`, `JsonPathReading`, `JsonPathRewrite`, with `JsonPathStrings`, `JsonPathLegible`, `JsonPathDollar` | extraction by bracketed and dotted paths, what a path means, and which rewritings keep it |
| `Utf8`, `Runes`, `Diagnostics`, `DiagnosticSecrets` | the normal form of diagnostics (UTF-8 as in section 3 of RFC 3629), and what becomes of secrets in it |
| `Capabilities` | the exact match of plan capabilities |
| `Bytes`, `Wrappers` | big-endian numbers, byte order, the option type |

## What turned out differently from what the code suggests

- `validateRuntimeCapabilities` has a last branch that its earlier checks seem to make unreachable. It is reached:
  the two helpers answer "none" with the empty string, so an empty capability name passes them. `EmptyNameSlips`
  gives such a list and `ValidateCapabilities` says exactly which lists end there. The verdict itself is right for
  every list.
- Dropping the blank segments of a JSON path changes what it extracts when all of them are blank (`.` extracts the
  whole body, an empty path nothing), and when the first segment that is left begins with a dollar sign, which is then
  stripped: `.$` extracts the field `$`, and `$` extracts nothing (`DollarAfterBlank`). `BareCompactIsExact` gives the
  exact condition, `CompactIsExact` that for the form written with the anchor `$.`, which has the first exception only.
- Writing bracketed indices dotted keeps the meaning of a segment exactly when its base does not read as an integer and
  its indices fit a 64-bit integer, or when neither form can ever read anything: `DottedSegmentIsExact`. For whole
  paths, with and without the anchor: `DottedIsExact` and `BareDottedIsExact`.
- A blocked poller of a consume session always has a wake-up present or due while something is pending, in every run,
  if and only if at most one poll is under way at a time: `WakeupsNeedOnePoll`. With two pollers the completion can
  reach only one of them before the timer of the other fires. Messages are never missed that way.
- A secret that is the replacement character U+FFFD comes back in a diagnostic: a byte that is not UTF-8 is turned
  into that character after the secrets have been replaced (`ReplacementCharacterComesBack`). Any other secret of kept
  text that shares no byte with `[REDACTED]` stays out: `SecretStaysOut`.
- Trusting one more key can turn an accepted manifest into a refused one: `OneMoreKeySpoils` gives such a manifest, and
  `TrustingOneMoreKey` says exactly when.

## Model

| member | source | states |
|---|---|---|
| BridgeTables.BridgeState.EnterAdmission | runtime_callback_registry.go:86-100 | refuses exactly when the state is closed or the key completed, and then changes nothing; otherwise counts the call in and hands out the one instance of the key, new and empty if there was none |
| BridgeTables.BridgeState.WithInstance | runtime_callback_registry.go:120-130 | the callback sees the data of its key only and leaves it only there; the reply is a refusal exactly for a closed state or a retired key |
| BridgeTables.BridgeState.CleanInstance | runtime_callback_registry.go:132-154 | the key is retired and its data cleared exactly when the callback succeeded; after a failure it stays active with what the callback left; other keys are untouched |
| BridgeTables.BridgeState.FinishClose | runtime_callback_registry.go:173-186 | clears the data of every detached instance and nothing in the tables |
| BridgeSafety.StepInv | runtime_callback_registry.go:82-186 | every step of every thread keeps the invariant on tables, locks, in-flight count, instances and history |
| BridgeSafety.CallbacksAreSerial | runtime_callback_registry.go:82-130 | in every run at most one instance is ever created per key, at most one callback runs per key, and each sees exactly what the previous one on its key left, empty at first |
| BridgeSafety.BeginsInOrder | runtime_callback_registry.go:102-130 | when an admitted callback begins no other is running on its key, and the data it is handed is what the last one left |
| BridgeSafety.NoLateAdmissions | runtime_callback_registry.go:102-111 | after a successful clean of a key no admission on it ever follows, after the start of a close no admission at all, not by queued threads and not when the close overtakes the clean |
| BridgeSafety.StepTables | runtime_callback_registry.go:86-154 | while a state is open, active and completed keys are disjoint and move one way only, an active key keeps its instance; once closed it stays closed and the in-flight count never rises |
| BridgeSafety.CountIsExact | runtime_callback_registry.go:82-171 | in every run the in-flight count equals the number of threads between admission and release, is never negative, and only falls from a close on |
| BridgeSafety.CloseIsFinal | runtime_callback_registry.go:156-186 | from the return of the first close on, in every continuation, no callback is running or admitted and every instance ever created is empty |
| BridgeReplies.RepliesAreExact | runtime_callback_registry.go:82-154 | in every run, a call that has its reply has been refused exactly if it was never admitted, and only for a closed state or a retired key; otherwise it reports success or failure as its own callback ended |
| BridgeReplies.CleansAreExact | runtime_callback_registry.go:132-154 | in every run, a call that has its reply has retired its key exactly if it is a clean and reports success |
| BridgeReplies.EventsAreOfCalls | runtime_callback_registry.go:82-154 | every admission, callback and retirement in the history is of the key, and of the kind, that its thread was called for |
| BridgeProgress.MutexHolderMoves | runtime_callback_registry.go:85-117 | whoever holds the state mutex can always take its next step, so it never waits for an instance |
| BridgeProgress.InstanceHolderMoves | runtime_callback_registry.go:101-154 | whoever holds an instance waits for nothing but the state mutex |
| BridgeProgress.Progress | runtime_callback_registry.go:82-186 | in every reachable state in which some call has not returned, some call can take a step |
| BridgeProgress.StepDecreases | runtime_callback_registry.go:82-186 | every step of a call that has begun lowers a well-founded measure |
| BridgeProgress.CallsEnd | runtime_callback_registry.go:82-186 | no schedule of the calls that have begun goes on for ever, if callbacks return |
| RegistrySafety.StepInv | runtime_callback_registry.go:436-452 | every step of registrations, closers and callbacks keeps the invariant that ties the registry to its states |
| RegistrySafety.CloseReturnsQuiescent | runtime_callback_registry.go:690-733 | when any of several concurrent closes returns, every scenario state ever registered is closed, quiescent and cleared, and stays so |
| RegistrySafety.StepKeepsStates | runtime_callback_registry.go:690-712 | no registration slips in once the registry is marked closed, and it stays closed |
| RegistrySafety.LateRegistrationIsRefused | runtime_callback_registry.go:436-441 | in every run, a registration that has no identifier when the registry is marked closed, even one that has begun, never gets one |
| RegistryIdentity.RegistrationIsNew | runtime_callback_registry.go:436-452 | a registration in an open registry is answered with its identifier, which names a new open state that holds nothing; other identifiers keep their states |
| RegistryIdentity.RegistrationsAreIdentified | runtime_callback_registry.go:436-452 | in every run an answered identifier names a stored state, no two registrations have the same, every stored state belongs to a registration, and the empty identifier is answered only by a closed registry |
| RegistryProgress.CallerMoves | runtime_callback_registry.go:690-733 | while a registration or close has not returned, some thread can take a step |
| RegistryProgress.Progress | runtime_callback_registry.go:690-733 | while a callback thread of any state has not returned, some thread can take a step |
| RegistryProgress.StepDecreases | runtime_callback_registry.go:436-452 | every step of what has begun, in the registry or in a state, lowers a well-founded measure over callers, loops and states |
| RegistryProgress.EveryCallReturns | runtime_callback_registry.go:690-733 | from a point after which no new registration, close or callback begins: however the threads are scheduled, as long as something moves whenever something can, all that have begun return, if callbacks do |
| ConsumeProtocol.Conservation | runtime_callback_registry.go:291-378 | in every run the batches in snapshot order followed by the queue are the emitted events in order: none lost, doubled or moved |
| ConsumeTables.ConsumeSession.Poll | runtime_callback_registry.go:291-314 | a poll returns everything that was queued or arrived while it waited, or leaves all of it queued when its context ends; it waits on only while nothing has come, and returns with nothing only when the timer fires; completion and error are those of the session before, or what the consumer returned during the last wait |
| ConsumeTables.ConsumeSession.Finish | runtime_callback_registry.go:353-359 | the consumer has returned; its error is kept unless it is the cancellation that a close asked for |
| ConsumeReports.SessionRemembers | runtime_callback_registry.go:317-359 | in every run the session is completed exactly after the consumer has returned, and its error is what the consumer returned, or none for a cancellation after a close |
| ConsumeReports.BatchesReport | runtime_callback_registry.go:291-371 | in every run each batch went to the poller that looked; it took all that was queued, reports the completion and error of that moment, and reports nothing only after the timer of that poller fired |
| ConsumeReports.PollsAreAnswered | runtime_callback_registry.go:291-314 | in every run there are as many answered polls as batches, each answered with one of them; a poll without a batch has had its context ended |
| ConsumeProtocol.CompletionIsLast | runtime_callback_registry.go:353-371 | provided the consumer emits nothing after it has returned: once a batch has reported completion everything emitted has been delivered, and that stays so |
| ConsumeProtocol.LeftBehindIsExact | runtime_callback_registry.go:332-371 | in every run, also with a consumer that emits after it has returned: a message is left in the queue exactly if one has been emitted since a batch was last returned |
| ConsumeProtocol.NoLostMessage | runtime_callback_registry.go:291-314 | with any number of pollers, while messages are queued a wake token is present or due, or a poller is about to look |
| ConsumeProtocol.NoLostCompletion | runtime_callback_registry.go:291-314 | in every run with at most one poll under way, a blocked poller has a wake token present or due while messages or the completion are pending |
| ConsumeProtocol.BothCanBlock | runtime_callback_registry.go:291-314 | two polls can both come to wait, in a run from a new session |
| ConsumeProtocol.TwoPollersMissCompletion | runtime_callback_registry.go:291-378 | any run in which two polls both wait and all others have returned, whatever is queued, whatever token is present or due, and whether or not the consumer has returned, can go on so that one of them stays blocked with the completion pending and no token present or due |
| ConsumeProtocol.WakeupsNeedOnePoll | runtime_callback_registry.go:291-378 | all runs with at most k polls under way keep a wake token present or due for every blocked poller while something is pending, if and only if k is at most one |
| Redaction.SplitRedacts | runtime_launcher.go:267-297 | the redaction of pieces joined by the secret, no occurrence beginning inside a piece, is the pieces joined by the replacement |
| Redaction.SplitExists | runtime_launcher.go:267-297 | every input splits that way, so this reading of leftmost replacement covers all inputs |
| Redaction.OutputIsClean | runtime_launcher.go:30 | if the secret shares no byte with the replacement, the redaction contains the secret nowhere, also not across a joint |
| RedactingCopy.WriteBytes | runtime_launcher.go:299-313 | everything is written however short the writes are; an error is reported exactly if one of the writes that were made failed or took nothing, and a prefix has then been written |
| RedactingCopy.WriteBefore | runtime_launcher.go:274-293 | the loop of a flush: what has been written followed by the redaction of what is left and still to come is unchanged, and everything that begins before the limit is written, unless a write that was made failed or took nothing |
| RedactingCopy.WriteRedactedPrefix | runtime_launcher.go:267-297 | a whole flush: the same, with the retained bytes moved to the front of the buffer in place |
| RedactingCopy.ReadChunk | runtime_launcher.go:231-233 | one read is appended within the capacity of the buffer, and pending bytes plus the rest of the stream stay the same |
| RedactingCopy.CopyRound | runtime_launcher.go:231-254 | a read and its flush leave less than one secret pending, and nothing of what is owed is lost |
| RedactingCopy.CopyLoop | runtime_launcher.go:230-264 | for every chunking and every short write: it succeeds exactly if the stream ends and every write made some progress, and then the output is the redaction of the whole stream; it passes on the error of the reader exactly if every write made progress, and then all but a tail shorter than the secret is out; in any case the output is a prefix |
| RedactingCopy.PlainCopy | runtime_launcher.go:212-216 | without a key it succeeds exactly if the stream ends and the writer takes each chunk whole |
| RedactingCopy.PrefixIsClean | runtime_launcher.go:211-265 | no part of the output, on an error either, contains a key that shares no byte with the replacement |
| RedactingCopy.CopyCommandOutput | runtime_launcher.go:211-265 | the same from the outside, with and without a key: exactly when it succeeds, and always for a writer that takes some bytes each time; what it has written is free of a key that shares no byte with the replacement however it ends; all three buffers that held content or key are wiped on every way out |
| Settings.ValidateValue | runtime_settings.go:69-184 | ends on every heap, restores the active set, and accepts exactly what the depth limit alone would; a refusal for anything but depth would stand under any limit, and every refusal names a fault that lies below the value |
| Settings.ValidateContainer | runtime_settings.go:103-160 | the same for maps, slices and pointers, with the container entered before its content and left after it on every path |
| Settings.ValidateSettings | runtime_settings.go:34-59 | accepts exactly the values whose unfolding is a finite tree of supported kinds nested at most 128 deep; a refusal is for a value 129 levels below, a container that leads to itself, or a number, map or kind that cannot be |
| Settings.FitsIffFinite | runtime_settings.go:24-30 | the recursive verdict with a depth limit is the existence of a finite unfolding of that height |
| Settings.CycleNeverFits | runtime_settings.go:203-224 | a value that leads back to a container above it is refused under every depth limit, so the cycle check never changes the verdict |
| Settings.ActiveSet.Enter | runtime_settings.go:203-224 | refuses exactly a container that is being visited |
| SettingsKinds.KindByKind | runtime_settings.go:83-184 | acceptance one level at a time, for every kind: nil and scalars pass, a finite number passes, a map needs string keys, and what a container holds or a visible field needs one level less |
| SettingsKinds.HiddenFieldsDoNotMatter | runtime_settings.go:186-201 | whatever stands in a field marked with a dash, or neither exported nor an embedded struct, never changes the verdict |
| SettingsKinds.NestingIsLimited | runtime_settings.go:69-82 | a scalar nested k arrays deep is accepted with a limit of n exactly if k is at most n |
| Bytes.BigEndianReadsBack | runtime_manifest_v2.go:863-873 | every number that fits the width is read back from its big-endian bytes |
| Bytes.BigEndianIsOnto | runtime_manifest_v2.go:863-873 | every byte string is the encoding of the number it spells, and of no other |
| ManifestLayout.EightBytes | runtime_manifest_v2.go:869-873 | numbers begin with their most significant byte |
| ManifestPayload.BuildPayload | runtime_manifest_v2.go:632-734 | the buffer filled field by field is the canonical payload, with the same refusals in the same order |
| ManifestPayload.AppendFields | runtime_manifest_v2.go:703-727 | appends identifier, length and value of every field, and stops exactly at text that is not ASCII |
| ManifestPayload.NoTruncation | runtime_manifest_v2.go:711-732 | a payload within 16 KiB has no truncated identifier or length prefix |
| ManifestPayload.FieldsReadBack | runtime_manifest_v2.go:703-727 | any list of fields that fit their prefixes is decoded back, whatever follows |
| ManifestPayload.PayloadReadsBack | runtime_manifest_v2.go:632-734 | claims, algorithm and key identifier are decoded back from the payload, whatever follows |
| ManifestPayload.PayloadIsPrefixFree | runtime_manifest_v2.go:632-734 | the payload is injective and prefix-free in claims, algorithm and key identifier |
| ManifestLayout.FieldLayout | runtime_manifest_v2.go:710-724 | a field is two bytes of identifier, four of length, and the value |
| ManifestLayout.PayloadLayout | runtime_manifest_v2.go:652-734 | a payload is the count 37 and then fields that read back with nothing left over, numbered 1 to 5 and 10 to 41 in this order, in at most 16384 bytes |
| ManifestLayout.PurposeById | runtime_manifest_v2.go:653-657 | fields 1 to 5 are domain, purpose, schema version 2, algorithm and key identifier |
| ManifestLayout.ArtifactById | runtime_manifest_v2.go:659-667 | which identifier carries which text claim about the artifact |
| ManifestLayout.NumbersById | runtime_manifest_v2.go:658-678 | which identifier carries which number, and in how many bytes |
| ManifestLayout.ReleaseById | runtime_manifest_v2.go:671-676 | which identifier carries which text claim about the release |
| ManifestLayout.BuildById | runtime_manifest_v2.go:679-689 | which identifier carries which text claim about the build |
| ManifestLayout.PayloadOutcome | runtime_manifest_v2.go:632-734 | there is a payload only for the one algorithm, a key identifier that is `sha256:` and 64 lower-case hexadecimal digits, and claims whose text is all seven bit; the first of these that fails is reported, and after them only the size |
| ManifestLayout.CheckedTexts | runtime_manifest_v2.go:875-882 | the check of text covers every text claim and no number |
| ManifestVerify.IntervalDoesNotWrap | runtime_manifest_v2.go:504-511 | the unsigned subtractions never wrap: the check means the ordinary inequalities |
| ManifestVerify.IndexKeyring | runtime_manifest_v2.go:366-388 | succeeds exactly for valid keys with distinct identifiers, and then indexes all of them |
| ManifestVerify.CheckSignatures | runtime_manifest_v2.go:390-454 | the loop with its running state accepts exactly well-formed signatures in strictly increasing order, each good under every key it names, at least one of them trusted |
| ManifestVerify.VerifyManifest | runtime_manifest_v2.go:346-456 | accepts exactly what the declarative acceptance condition says; what it accepts is current and has a signature that a key of the keyring verifies over the payload of its claims, and without a signature under an identifier of the keyring it accepts nothing |
| ManifestVerify.AcceptedIsSigned | runtime_manifest_v2.go:390-454 | an accepted manifest has a signature under an identifier of the keyring that the key verifies over the payload of these claims |
| ManifestVerify.AcceptanceSpelledOut | runtime_manifest_v2.go:346-456 | the acceptance condition in terms of keys, times, signatures and neighbours only, with its numbers |
| ManifestVerify.AcceptedIsCovered | runtime_manifest_v2.go:425-449 | every signature of an accepted manifest by a known key verifies over these very claims, and now lies in the validity, which lies in the interval of the key |
| ManifestVerify.KeyringOrderIsIrrelevant | runtime_manifest_v2.go:366-388 | reordering the keyring never changes the verdict |
| ManifestVerify.TrustingOneMoreKey | runtime_manifest_v2.go:425-449 | an accepted manifest stays accepted with one more key if and only if there is room for it, it is valid and new, and it covers the signature made under its identifier |
| ManifestWitness.OneMoreKeySpoils | runtime_manifest_v2.go:346-456 | any manifest with one good and one bad signature, and claims that pass the checks, is accepted with the first key alone, and refused when the second one, valid, new and with room for it, is trusted too |
| ManifestWitness.ReleaseIsSpoiled | runtime_manifest_v2.go:458-626 | the claims of a release, with the values that the identity checks ask for, can be in that situation: their payload exists for both keys |
| RuntimeCache.Resolver.VerifyArtifactFile | runtime_download.go:80-132 | success means that the file in place has the claimed digest |
| RuntimeCache.Resolver.Authenticate | runtime_download.go:46-69 | calls the verifier; what it accepts is current and signed by a key of the configured keyring |
| RuntimeCache.Resolver.FetchManifest | runtime_download.go:552-643 | one network call; a manifest comes back exactly if it is within the limit, parses and has a permitted address |
| RuntimeCache.Resolver.DownloadAndInstall | runtime_download.go:244-403 | a binary of another digest is never put in place, and nothing before the new sidecar is ready; if no step fails it succeeds exactly for an artifact of the signed length and digest; without interference a success leaves binary and sidecar in agreement |
| RuntimeCache.Resolver.FetchAndInstall | runtime_download.go:186-219 | without interference a success leaves a usable cache; if no step fails it succeeds exactly if an authentic manifest comes and its artifact is in place or comes too |
| RuntimeCache.Resolver.ReadAccepted | runtime_download.go:165-169 | a cached manifest is used only if it is accepted now and its address permitted; if no step fails it is found exactly then |
| RuntimeCache.Resolver.UseAccepted | runtime_download.go:170-183 | an agreeing cache is used without the network and unchanged; otherwise the accepted manifest is installed, unless only the cache may be used; if no step fails, success is characterised exactly |
| RuntimeCache.Resolver.ResolvePath | runtime_download.go:134-220 | keyless agent mode never uses the network; an undisturbed success leaves a usable cache: the binary has the digest that a manifest claims which is current and signed by a key of the keyring; a usable cache is used as it is; from any cache, if no step fails, it succeeds exactly if the cache or the servers have what is needed |
| RuntimeCache.Resolver.PrepareExecutionCopy | runtime_cache_security.go:336-471 | a copy is handed out only if its own digest is the claimed one, written as 64 lower-case hexadecimal digits, whatever happened to cache or copy meanwhile; if nothing fails or is touched, exactly if the binary in place is the artifact |
| RuntimeCache.Resolver.ResolveExecution | runtime_download.go:222-242 | from any cache contents and with any interference between any two file steps, an execution copy has the digest claimed by a manifest that, at a time of this call, was current and signed by a key of the keyring; if nothing fails or is touched, there is one whenever the resolve has what it needs and its manifest stays current |
| RuntimeCache.ResolveTwice | runtime_download.go:134-220 | two resolves in a row: after an undisturbed success the second, within the validity of the manifest that the first one left, makes no network call and changes nothing |
| JsonPath.MatchIsExact | public_correlation_helpers.go:153-154 | the match finds base and indices if and only if the segment is a base without brackets followed by bracketed digit runs, and there is one such reading |
| JsonPath.ReadPathSegment | public_correlation_helpers.go:190-231 | the segment reader with its loop computes the recursive reading, with the same failures |
| JsonPath.ExtractTrackingJsonValue | public_correlation_helpers.go:156-188 | the loop over segments computes the walk that the rewriting results are about |
| JsonPathMeaning.WalkMeans | public_correlation_helpers.go:167-178 | walking along segments is following the fields and elements they stand for, with nothing read if one of them never reads anything |
| JsonPathMeaning.SameReadingIsSameMeaning | public_correlation_helpers.go:156-239 | two paths extract the same text from every body if and only if they stand for the same fields and elements, or neither ever reads anything |
| JsonPathReading.AtoiIsExact | public_correlation_helpers.go:191 | a text is read as an integer exactly if it is a decimal numeral of the 64-bit range, with or without a sign and leading zeros, and as that number |
| JsonPathReading.TrimIsExact | public_correlation_helpers.go:157-172 | trimming cuts spaces at both ends, and all of them |
| JsonPathReading.WrittenPathReads | public_correlation_helpers.go:156-239 | a path written from names and numbers extracts what is found by going through these fields and elements one by one |
| JsonPathReading.FollowSpelledOut | public_correlation_helpers.go:205-239 | a field leads to its entry and an index to that element, of an object and an array only; anything else leads nowhere |
| JsonPathReading.ElementOfField | public_correlation_helpers.go:190-239 | `$.name[n]` extracts row n of the array in that field, for every n, and nothing beyond the end |
| JsonPathStrings.SplitJoin | public_correlation_helpers.go:168 | splitting undoes joining of dot-free segments |
| JsonPathLegible.NeverReadsMeans | public_correlation_helpers.go:190-231 | a path reads nothing from any body exactly if it is empty or one of its segments has no form that can be read |
| JsonPathRewrite.DottedSegmentIsExact | public_correlation_helpers.go:190-239 | writing a segment dotted changes nothing, from every value, if and only if the segment is rewritable |
| JsonPathRewrite.DottedExtractsTheSame | public_correlation_helpers.go:156-239 | for every body, writing all brackets of a path with rewritable segments dotted, after the anchor, leaves the extracted text unchanged, null intermediates included |
| JsonPathRewrite.DottedIsExact | public_correlation_helpers.go:156-239 | the dotted path with the anchor extracts the same from every body if and only if all segments are rewritable or, for a path that never reads anything, the dotted one never does |
| JsonPathDollar.AnchorIsOptional | public_correlation_helpers.go:157-162 | for written segments the first of which does not begin with a dollar sign, the anchor makes no difference, so `a.0.1.b` is covered as it stands |
| JsonPathRewrite.BareDottedIsExact | public_correlation_helpers.go:156-239 | the dotted path as it stands extracts the same from every body under the same condition and if it does not begin with a dollar sign |
| JsonPathRewrite.IntegerBaseIsNotRewritable | public_correlation_helpers.go:191-193 | a digit as a base turns into an index when written dotted |
| JsonPathRewrite.CompactIsExact | public_correlation_helpers.go:168-172 | dropping blank segments, after the anchor, leaves the extracted text unchanged for every body if and only if the path is empty or has a segment that is not blank |
| JsonPathRewrite.BareCompactIsExact | public_correlation_helpers.go:157-172 | dropping them without the anchor does if and only if, besides, what is left does not begin with a dollar sign or the path never reads anything |
| JsonPathRewrite.DollarAfterBlank | public_correlation_helpers.go:157-162 | `.$` extracts a field that `$`, what is left of it, does not |
| JsonPathRewrite.SingleDotIsAllBlank | public_correlation_helpers.go:163-172 | a single dot is a path of blank segments only |
| Utf8.EncodeReadsBack | runtime_diagnostics.go:18-26 | encoded scalar values are valid UTF-8 and are decoded back |
| Utf8.ValidReadsBack | runtime_diagnostics.go:18-26 | bytes are valid UTF-8 if and only if they are the encoding of what they decode to |
| Utf8.NoFourInside | runtime_diagnostics.go:32-35 | of any four bytes in a row one starts a rune, so the cut backs up at most three |
| Diagnostics.FindCut | runtime_diagnostics.go:32-36 | the loop that backs up to a starting byte finds the longest prefix of whole runes that fits, at most three bytes short |
| Diagnostics.SanitizeDiagnostic | runtime_diagnostics.go:11-37 | the byte-level passes compute the normal form on runes; the result is valid UTF-8 of at most 4096 bytes, on one line, free of control and format characters, with single interior spaces only |
| Diagnostics.SanitizedIsClean | runtime_diagnostics.go:27-36 | the result is the whole normal form if that fits, otherwise a prefix of it at most four bytes short of the limit |
| Diagnostics.SanitizedIsStable | runtime_diagnostics.go:11-37 | normalising again without secrets changes nothing |
| Diagnostics.WordsSurvive | runtime_diagnostics.go:18-27 | before the cut, the words of the redacted text survive in order |
| DiagnosticSecrets.SecretIsReplaced | runtime_diagnostics.go:12-17 | the pieces between the leftmost occurrences of a secret come out joined by the replacement |
| DiagnosticSecrets.SecretsActInOrder | runtime_diagnostics.go:12-17 | several secrets act one after the other |
| DiagnosticSecrets.EmptySecretIsIgnored | runtime_diagnostics.go:13-15 | an empty secret does nothing |
| DiagnosticSecrets.RedactAllIsClean | runtime_diagnostics.go:12-17 | after all secrets have acted, none that shares no byte with the replacement occurs in the bytes, whatever the others were |
| DiagnosticSecrets.SecretStaysOut | runtime_diagnostics.go:11-37 | no secret of kept text that shares no byte with the replacement is in the final diagnostic: neither decoding, blanking, joining nor the cut brings it back |
| DiagnosticSecrets.ReplacementCharacterComesBack | runtime_diagnostics.go:12-26 | a secret that is U+FFFD does come back, from a byte that is not UTF-8 |
| DiagnosticSecrets.BlankSeparates | runtime_diagnostics.go:18-27 | a control, format or space character separates words |
| DiagnosticSecrets.StrayByteIsReplaced | runtime_diagnostics.go:18 | a byte that occurs in no UTF-8 comes out as U+FFFD, and what is around it as it is |
| Capabilities.FirstDuplicate | runtime_plan.go:269-276 | the first name equal to its predecessor, or the empty name when there is none |
| Capabilities.FirstSetDifference | runtime_plan.go:278-289 | the first name the other list lacks, or the empty name when there is none |
| Capabilities.ValidateCapabilities | runtime_plan.go:249-267 | accepts exactly the expected list; a reported name is repeated, missing or unexpected as the report says; ends in its last branch exactly for lists that begin with the empty name and pass the named checks |
| Capabilities.SameNamesSameList | runtime_plan.go:249-267 | two strictly sorted lists with the same names are the same list |
| Capabilities.EmptyNameSlips | runtime_plan.go:260-266 | the expected list with an empty name before it reaches the last branch |
| Capabilities.ExpectedIsStrict | version.go:30-39 | the built-in list is strictly sorted and has no empty name |

## Left out

- The HTTP and gRPC servers, the child process, sockets, timers and JSON decoding of requests: a callback is a step
  with any outcome, a read or a write any sequence of chunks, a timer may fire at any time.
- SHA-256, Ed25519, base64, URL policy and JSON parsing of manifests and keyrings: functions of which nothing is
  assumed. The identity checks on claims other than the times are one such function.
- File modes, ownership, stable handles, links and directory syncs (`runtime_cache_security.go` and its platform
  files): a file step can fail, and other resolvers can change both files before it.
- The length and digest checks while a download streams in are one check of what was written to the temporary file.
- Error texts and the paths in them; which error comes first is kept where the code decides it, but only the verdicts
  are characterised.
- Statements of one critical section are one step: only holders of the mutex touch what it protects. The changes a
  callback makes to its data become visible in the step in which it ends.
- Fresh random callback identifiers are assumed to be new; the tables of callbacks other than scenarios, the closing of
  tracking streams in the registry's close, and metrics are not modelled.
- BridgeTables.BridgeState.CleanInstance: the class runs a call alone, so a close cannot overtake the clean there; the
  transition system has that case.
- BridgeTables.BridgeState.WithInstance: the class runs a call alone, so the recheck always succeeds there; the
  interleavings are in the transition system over the same table functions.
- ConsumeProtocol.NoLostCompletion: one poll at a time, because with two pollers it fails.
- Closing a consume session before its consumer has a cancel function is not stated to stop that consumer, because it
  does not.
- RedactingCopy.WriteBytes: a writer that keeps and changes the slice it was given is not modelled.
- The tail of a spooled output (`readRuntimeCommandSpoolTail`): cutting the spool shifts the alignment of matches, so it
  is not the tail of the redaction.
- Settings.ValidateSettings: the check only; the marshalling and unmarshalling after it, which can still refuse a value with
  a marshaler of its own, are not modelled.
- Settings.ValidateValue: map keys are visited in one fixed order, which the verdict does not depend on; only the
  order in which several faults would be reported could differ.
- JsonPath.ExtractTrackingJsonValue: paths are strings of valid characters; the printed form of numbers and
  containers is a function of the value.
- Runes that a later Unicode version adds to the format characters: the table is that of Unicode 15.
- Fluent setters, copies between configuration records, and the schedulers of the private runtime.
