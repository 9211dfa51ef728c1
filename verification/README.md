# RepoDesk core: verified model

RepoDesk is a local engineering control plane. This project models the parts of it that carry real
logic and proves what they promise, for every input, every run and, where calls overlap, every
interleaving of the steps named below or in the modules:

- **Context packing** and the validator written separately for its output: a six-key ranking, a greedy
  token-budget pass, a second sort into the caller's order, order numbering, and the snapshot that
  re-derives everything (`Packing`, `PackingProperties`, `Pipeline`, on `Sorting` and `Text`);
  `PackingPriority` states the priorities on the candidates' own fields, `SnapshotFaults` the validator's
  verdict on the snapshot's own fields.
- **A language-server session**: the concurrent request table (`RequestTable`) and what the results of
  its calls mean (`RequestResults`), document notifications (`Documents`), `Content-Length` framing
  (`Framing`, byte by byte in `WireFormat` and `Whitespace`) and percent coding (`PercentCodec`, `Bytes`,
  `Utf8`).
- **The language-tool installer**: single-use tokens, cancellation and one install per recipe
  (`Installer`, with the history of every install in `InstallHistory`), one execution (`Execution`),
  promotion by renames with rollback alone (`Promotion`) and interleaved by file operation (`Promotions`,
  `PromotionSuccess`), and all of it together (`InstallRuns`).
- **Bounded searching and draining**: project search (`ProjectSearch`, with the meaning of its matches in
  `SearchMeaning`), fuzzy matching (`Subsequence`), the stream tee (`Tee`).
- **Data that must survive**: CSV printing and splitting (`Csv`, `CsvReading`), custom providers and
  their keychain secrets (`Slugs`, `SlugLaws`, `Providers`, `SavedProviders`, `ProviderRuns`,
  `LegacyProviders`), optimistic saving (`DocumentSave`), draft recovery (`Drafts`), and what either
  accepts (`SaveChecks`).
- **The quit handshake**, with each call one step (`Quit`) and with each atomic access one step
  (`QuitInterleaved`, `QuitForce`), with what the answers mean (`QuitResults`); **token estimates**
  (`Tokens`, `TokenClasses`); **change attribution** (`Attribution`, `CombinedEvidence`).

Code that changes state is a class or a method proved against a specification function; the
properties are then lemmas about that function, its runs, or both. Failures of files, keychains,
writers and child processes are inputs chosen freely, so each property covers every pattern of them.

## What does not hold as it stands

These are consequences of the code as written. Each has a concrete input, or the exact condition under
which the property does hold, and most have both.

- One install per recipe is not guaranteed: the membership check and the insertion take the lock
  separately. Two previews of one recipe can both be running, and cancelling then reaches only the
  second (`SplitCheckRaces`). A run is exclusive, and keeps every install where cancelling finds it,
  exactly when no insertion meets a running recipe (`ExclusiveExactlyWhenEntriesClean`,
  `OwnedExactlyWhenEntriesClean`); all runs are exclusive, and cancelling reaches every running install,
  exactly when check and insertion are one step (`ExclusiveExactlyWhenJoined`,
  `CancelReachesExactlyWhenJoined`).
- Two promotions of one destination can therefore interleave, and then lose both the old and the new
  tree (`ConcurrentPromotionsLoseInstallation`, `RacingInstallsLoseTree`). Old, new or backup is kept
  exactly when no promotion can be interrupted in any phase (`Promotions.KeptExactlyWhenClosed`); on all
  runs of the service, exactly when check and insertion are one step
  (`InstallRuns.KeptExactlyWhenJoined`).
- A promotion deletes a leftover backup before anything else, so an installation that survives only as
  a backup can be lost by trying again (`RetryCanLoseInstallation`). Whatever fails, one promotion keeps
  some tree exactly when an installation was in place (`SurvivesExactlyFromDestination`), and from there
  `n` promotions in a row do exactly when `n` is at most one (`SurvivesOneRetryExactly`).
- A failed change of a provider can leave the new secret beside the old metadata: when the rollback
  claims success without effect (`SilentRollbackDiverges`), and when the written secret cannot be read
  back, which returns without any rollback (`UnverifiedWriteStays`). When exactly it leaves no trace is
  `CommitIsAllOrNothing`, for saving `SaveIsAllOrNothing` and for deleting `DeleteIsAllOrNothing`.
- Nothing keeps saving and deleting providers apart: when two saves both load before either commits, the
  second removes the first one's entry (`SecondSaveUndoesFirst`). Other providers are left alone on all
  runs exactly when loading and committing are one step (`ProviderRuns.OthersSurviveExactlyWhenJoined`).
- In a configuration with ids that are not slugs, saving under the slug of such an id adds a second entry
  on the same keychain slot (`SharedSlotReplacesSecret`). Slots stay unique on all runs exactly when
  the ids are distinct slugs (`SlotsStayUniqueExactly`). The old entry can never be deleted: some run
  removes an entry exactly when its id is a slug (`DeletableExactlySlugs`).
- Migrating two providers whose names share a slug but not a secret loses one secret; the condition is
  exact (`MigrationExact`, and over all runs `SecretsOutliveExactly`).
- A document write that fails leaves the registry ahead of the server: the next notification may be a
  change to a document that was never opened (`FailedOpenBreaksProtocol`,
  `DeliveredConformsExactly`).
- Request ids repeat after 2^64 requests, exactly then (`IdsDistinctExactly`), and a waiting caller can
  then see a disconnected channel (`WrapAroundDisconnects`, `NeverDisconnectedExactly`).
- An external write between the last fingerprint comparison and the rename is overwritten unseen
  (`LateWriteIsLost`), and two saves can both replace the file on one fingerprint
  (`TwoSavesOneFingerprint`). Neither happens on any run exactly when comparison and rename are one step
  (`SafeExactlyWhenJoined`, `NeedsRestoreExactlyWhenJoined`); within one run the first depends on a change
  in that window (`LostExactlyWhenChangedLate`), the second on the order of comparison and replacement
  and on other writes of the same content (`RestoredExactly`). A save can report an error after it has
  replaced the file (`ErrorAfterReplacement`), exactly when what follows the rename fails
  (`ErrorHidesReplacementExactly`).
- Two interleaved `complete` calls of the quit handshake can both return true (`CompletesTwice`); at most
  one does on all runs exactly when a completion takes the request in one step
  (`AtMostOnceExactlyWhenTaken`). Asking whether to force the exit can be answered
  yes although an acknowledgement had succeeded: after a late store of another call
  (`LateCancelForces`), or because a cancellation falls between the two loads of the question
  (`CancelBetweenForces`). For one run the condition is `ReturnsTrueExactly`; on all runs it never happens
  exactly when four pairs of accesses are each one step (`NeverForcedExactlyWhenSettling`). `complete(0)` succeeds
  whenever no request is pending (`CompleteZeroWhenIdle`), and ids run out after 2^64 - 1 requests
  (`IdsRunOut`, `AtMostOnceExactlyWhileIdsLast`, `AcknowledgementsHoldExactlyWhileIdsLast`).
- The two percent decoders disagree exactly on the inputs that contain `%+` and that the library decoder
  accepts (`DecodersDisagreeExactly`).
- An empty list of CSV fields prints like one empty field (`CsvRoundTrip`).
- The totals of the packer saturate: they add up to the saturated candidate total exactly when the
  true total fits a `usize`, or every candidate costs nothing or more than the budget
  (`TokensConserved`).
- `crates/repodesk-core/src/context_pipeline.rs:85-86` says that an absent score is never a zero
  quality, yet ranking compares a missing score as zero
  (`crates/repodesk-core/src/context_packing.rs:112-116`). The model follows the code:
  filling missing scores with zero never changes what is packed (`MissingScoresPackAsZero`).

## Model

| member | source | states |
|---|---|---|
| `Packing.RankingIsStrictTotalOrder` | crates/repodesk-core/src/context_packing.rs:101-126 | the six-key ranking is irreflexive, asymmetric and transitive, and decides every pair of distinct ids |
| `Packing.RankingSorts` | crates/repodesk-core/src/context_packing.rs:45-46 | the comparator is total and transitive, as the sort that uses it requires |
| `Packing.PackContextCandidates` | crates/repodesk-core/src/context_packing.rs:41-99 | the loops over remaining budget, totals and selections compute exactly the functional packing that the lemmas below characterise |
| `Packing.AssignRenderOrder` | crates/repodesk-core/src/context_packing.rs:78-91 | included selections are numbered consecutively, others left unnumbered |
| `Packing.TokensWherePermutes` | crates/repodesk-core/src/context_packing.rs:48-76 | a token total does not depend on the order in which candidates are summed |
| `PackingProperties.GreedyCharacterisation` | crates/repodesk-core/src/context_packing.rs:45-76 | a candidate is excluded exactly when its cost exceeds the budget minus all included candidates ranked above it |
| `PackingProperties.GreedyIsUnique` | crates/repodesk-core/src/context_packing.rs:45-76 | only one set of candidates satisfies that characterisation |
| `PackingProperties.GreedyIsPriorityGreatest` | crates/repodesk-core/src/context_packing.rs:45-76 | no set within the budget agrees with the packer above some candidate and then takes it where the packer does not |
| `PackingProperties.RequiredFit` | crates/repodesk-core/src/context_packing.rs:101-110 | when the required candidates fit the budget together, every one of them is included |
| `PackingProperties.NothingElseFits` | crates/repodesk-core/src/context_packing.rs:48-76 | no excluded candidate would still fit beside everything that was included |
| `PackingProperties.TokensConserved` | crates/repodesk-core/src/context_packing.rs:48-98 | included tokens stay within budget, and included plus excluded equal the saturated candidate total exactly when the true total fits or every candidate costs nothing or more than the budget; duplicates allowed |
| `PackingProperties.DecisionsInCallerOrder` | crates/repodesk-core/src/context_packing.rs:78-91 | the second sort turns the rank-ordered decisions into one decision per candidate in the caller's order |
| `PackingProperties.SelectionsFollowCaller` | crates/repodesk-core/src/context_packing.rs:41-99 | selection i is about candidate i, with state, tokens, reason and order agreeing with the greedy choice |
| `PackingProperties.OrdersAreExact` | crates/repodesk-core/src/context_packing.rs:78-91 | the orders of k included selections are exactly 0 to k-1, increasing along the caller's order |
| `PackingProperties.RankingIgnoresInputOrder` | crates/repodesk-core/src/context_packing.rs:45-46 | with distinct ids every permutation of the input ranks to the same sequence |
| `PackingProperties.PackingIgnoresInputOrder` | crates/repodesk-core/src/context_packing.rs:41-99 | permuting the input changes neither the included set, nor the totals, nor any one candidate's state |
| `PackingProperties.MissingScoresPackAsZero` | crates/repodesk-core/src/context_packing.rs:101-116 | a candidate list packs exactly as the same list with every missing score replaced by zero |
| `PackingPriority.RankingIsByFields` | crates/repodesk-core/src/context_packing.rs:101-126 | one candidate is ahead exactly when it wins the first key that differs: required, higher relevance, authoritative over reviewed over observed over heuristic over legacy, fresher, cheaper, smaller id |
| `PackingPriority.PriorityDecides` | crates/repodesk-core/src/context_packing.rs:41-99 | of two candidates, one that comes first and costs no more is never left out while the other is taken, for every list and budget |
| `PackingPriority.FirstOfTwo` | crates/repodesk-core/src/context_packing.rs:41-99 | of two equally costly candidates of which one fits, the one that comes first is included and the other excluded, in either input order |
| `Sorting.SortIsPermutation` | crates/repodesk-core/src/context_packing.rs:45-46 | sorting loses and invents nothing |
| `Sorting.SortIsSorted` | crates/repodesk-core/src/context_packing.rs:78-80 | sorting by a total transitive comparator arranges every pair in order |
| `Sorting.SortedUnique` | crates/repodesk-core/src/context_packing.rs:45-46 | two sorted arrangements of the same elements without ties are the same sequence |
| `Text.CompareStringTransitive` | crates/repodesk-core/src/context_packing.rs:109-109 | the id tie-break is a transitive lexicographic order |
| `Pipeline.ValidateScore` | crates/repodesk-core/src/context_pipeline.rs:353-366 | a score is accepted exactly when absent or in [0, 1], and the error names the candidate |
| `Pipeline.ValidateCandidates` | crates/repodesk-core/src/context_pipeline.rs:198-241 | accepts exactly distinct ids with fine metadata, returning the id set and the saturated token total; an error is a real fault |
| `Pipeline.ValidateSelection` | crates/repodesk-core/src/context_pipeline.rs:243-321 | one selection is accepted only when fine and unused, and rejected only for a real fault in the selections so far |
| `Pipeline.ValidateSelections` | crates/repodesk-core/src/context_pipeline.rs:243-321 | the loop with its id and order sets accepts exactly the selections that are fine together |
| `Pipeline.FaultIsFatal` | crates/repodesk-core/src/context_pipeline.rs:243-321 | every reported selection fault really rules the selections out |
| `Pipeline.Validate` | crates/repodesk-core/src/context_pipeline.rs:181-350 | the validator accepts exactly the consistent snapshots, and each error is justified by the snapshot |
| `Pipeline.New` | crates/repodesk-core/src/context_pipeline.rs:149-178 | returns the snapshot with derived totals exactly when that snapshot is consistent |
| `Pipeline.PackedTotalIsDerived` | crates/repodesk-core/src/context_pipeline.rs:149-178 | the packer's included total is the one the snapshot derives from the selections |
| `Pipeline.PackedSelectionsFine` | crates/repodesk-core/src/context_packing.rs:41-99 | the packer's selections satisfy every selection check and cover every candidate |
| `Pipeline.PackerOutputValidates` | crates/repodesk-core/src/context_pipeline.rs:149-350 | a snapshot built from the packer's output with its own budget validates exactly when the metadata is not blank, each candidate is fine and ids are distinct; no bound on the sums is needed |
| `SnapshotFaults.ConsistentExactly` | crates/repodesk-core/src/context_pipeline.rs:181-366 | a snapshot is accepted exactly when it has none of the seventeen kinds of fault, each stated on the fields: version 1, non-blank names, candidates and scores, totals, selections and orders |
| `SnapshotFaults.ReportedFaultsAreReal` | crates/repodesk-core/src/context_pipeline.rs:181-366 | every error the validator can report names a fault the snapshot has |
| `RequestTable.StepKeepsInv` | apps/desktop/src-tauri/src/language_server.rs:735-771 | every lock-granular step of caller, reader, timeout or drain keeps the table's invariant |
| `RequestTable.RunKeepsInv` | apps/desktop/src-tauri/src/language_server.rs:735-771 | the invariant holds in every interleaving of up to 2^64 requests |
| `RequestTable.RequestTableIsSafe` | apps/desktop/src-tauri/src/language_server.rs:735-771 | ids are issued once; until a request returns, its sender is in exactly one place or its one message is on the channel; at most one message reaches a caller; a returned id has left the table; no caller sees a disconnected channel |
| `RequestTable.ResponsesReachTheirCaller` | apps/desktop/src-tauri/src/language_server.rs:971-993 | a response obtained by a call carries that call's id, and no server message reaches two calls |
| `RequestTable.LateResponseIsDropped` | apps/desktop/src-tauri/src/language_server.rs:971-993 | a response to a request that has returned changes no call, no table entry and nothing in the reader's hand |
| `RequestTable.ReturnedIsFinal` | apps/desktop/src-tauri/src/language_server.rs:758-771 | once a request has returned, no later step of any party changes its result |
| `RequestTable.IdsDistinctExactly` | apps/desktop/src-tauri/src/language_server.rs:739-740 | on every run, without bound, ids are distinct exactly when at most 2^64 were issued |
| `RequestTable.WrapAroundDisconnects` | apps/desktop/src-tauri/src/language_server.rs:739-771 | a run beyond that bound in which an id repeats and the first caller sees a disconnected channel |
| `RequestTable.NeverDisconnectedExactly` | apps/desktop/src-tauri/src/language_server.rs:735-771 | all runs of at most n requests keep every caller from seeing a disconnected channel exactly when n is at most 2^64 |
| `RequestResults.ResultsMean` | apps/desktop/src-tauri/src/language_server.rs:735-771 | on every run a call ends with a value exactly when it received that value, timed out exactly when its time ran out on an empty channel and it removed its entry, with a write error exactly when its write failed and it removed its entry, and disconnected exactly when it found every sender gone |
| `RequestResults.ReceiverGetsMessage` | apps/desktop/src-tauri/src/language_server.rs:758-759 | a waiting call with a message that receives has returned that very message, for the rest of the run |
| `RequestResults.ResponseArrives` | apps/desktop/src-tauri/src/language_server.rs:971-993 | in every reached state, a response to a waiting call that is taken and sent is what the call then returns, and its id is no longer pending |
| `RequestResults.DrainReachesCaller` | apps/desktop/src-tauri/src/language_server.rs:1353-1359 | in every reached state, draining empties the table and a call waiting for a registered request then returns the failure |
| `RequestTable.Session.IssueId` | apps/desktop/src-tauri/src/language_server.rs:739-740 | takes the next id, wrapping at 2^64, as the issue step does |
| `RequestTable.Session.InsertPending` | apps/desktop/src-tauri/src/language_server.rs:741-744 | stores the sender under its id, as the insert step does |
| `RequestTable.Session.RemovePending` | apps/desktop/src-tauri/src/language_server.rs:746-765 | the caller removes its own id and returns the write error or the timeout |
| `RequestTable.Session.TakePending` | apps/desktop/src-tauri/src/language_server.rs:971-993 | the reader moves the sender for an id from the table to its hand, or drops the response |
| `RequestTable.Session.FailPending` | apps/desktop/src-tauri/src/language_server.rs:1353-1359 | the draining loop empties the table and sends the failure to exactly the calls registered in it |
| `Documents.Registry.SyncDocument` | apps/desktop/src-tauri/src/language_server.rs:673-708 | opens at version 1 or changes at the next version, saturating, and records it whether or not the write succeeds |
| `Documents.Registry.CloseDocument` | apps/desktop/src-tauri/src/language_server.rs:710-723 | removes the document and notifies only when it was open |
| `Documents.RunConforms` | apps/desktop/src-tauri/src/language_server.rs:673-723 | with one key per URI the attempted notifications of each document follow (didOpen 1, didChange rising by one, didClose)* on every run, and the registry holds exactly the open documents at their versions |
| `Documents.ProtocolNeedsOneKeyPerUri` | apps/desktop/src-tauri/src/language_server.rs:673-723 | that holds on all runs exactly when no two paths share a URI |
| `Documents.DeliveredConformsExactly` | apps/desktop/src-tauri/src/language_server.rs:673-723 | what the server received conforms throughout a run exactly when no write fails, except of a change that repeats the saturated version |
| `Documents.HarmDiverges` | apps/desktop/src-tauri/src/language_server.rs:673-723 | any other failed write leaves the registry and the server apart at once |
| `Documents.FailedOpenBreaksProtocol` | apps/desktop/src-tauri/src/language_server.rs:673-708 | after one failed open the first notification the server sees is a change at version 2 |
| `Bytes.DecimalRoundTrip` | apps/desktop/src-tauri/src/language_server.rs:781-792 | parsing the printed decimal of any `usize` returns it |
| `Framing.Stream.ReadLine` | apps/desktop/src-tauri/src/language_server.rs:940-946 | takes the stream up to and including the first line feed, or all of it |
| `Framing.Stream.ReadJsonRpcFrame` | apps/desktop/src-tauri/src/language_server.rs:940-969 | the header loop and body read consume exactly what the frame grammar says and report its outcome |
| `Framing.Stream.WriteJson` | apps/desktop/src-tauri/src/language_server.rs:781-792 | appends exactly one frame to the stream |
| `Framing.FrameRoundTrip` | apps/desktop/src-tauri/src/language_server.rs:940-969 | one frame is read back exactly whatever follows it and whatever other headers surround its length |
| `Framing.PlainFrame` | apps/desktop/src-tauri/src/language_server.rs:781-792 | what is written as one frame is read as that body, leaving the rest untouched |
| `Framing.FramesRoundTrip` | apps/desktop/src-tauri/src/language_server.rs:940-969 | reading the concatenated frames of any list of bodies returns the list, then the end of the stream |
| `Framing.TruncatedFrame` | apps/desktop/src-tauri/src/language_server.rs:940-969 | a frame cut anywhere is never taken for a message: end of stream in the headers, an error in the body |
| `WireFormat.FrameBytes` | apps/desktop/src-tauri/src/language_server.rs:781-792 | a written frame is the fourteen bytes of the standard name, colon, space, decimal digits of the length without leading zeros, CR LF CR LF and the body |
| `WireFormat.LengthComesFrom` | apps/desktop/src-tauri/src/language_server.rs:940-958 | a header line sets the length exactly when its name is those fourteen bytes in any ASCII casing, to what the decimal number in it denotes once white space around it is dropped, or to nothing; no other line changes it |
| `WireFormat.BodyFollows` | apps/desktop/src-tauri/src/language_server.rs:959-969 | after that header line and an empty line the body is exactly as many bytes as the line says, and what follows is left |
| `WireFormat.FirstLineDecides` | apps/desktop/src-tauri/src/language_server.rs:940-969 | on any stream the first line decides: text that is not UTF-8 is an error, an empty line needs a known length and that many bytes, any other line only sets the length |
| `Whitespace.WhiteIsWhitespace` | apps/desktop/src-tauri/src/language_server.rs:955 | the white space trimmed around a header value is, encoded, the Unicode White_Space property |
| `PercentCodec.PercentEncodePath` | apps/desktop/src-tauri/src/language_server.rs:1304-1314 | the loop computes the encoding the round-trip lemmas are about |
| `PercentCodec.SessionPercentDecode` | apps/desktop/src-tauri/src/language_server.rs:1316-1332 | the loop decodes by explicit hexadecimal digits, failing on a bad or cut escape or on invalid UTF-8 |
| `PercentCodec.LibraryPercentDecode` | crates/repodesk-core/src/code_library.rs:326-348 | the loop decodes by parsing the two characters as a number, failing likewise |
| `PercentCodec.EncodingAlphabet` | apps/desktop/src-tauri/src/language_server.rs:1304-1314 | an encoding consists of unreserved characters, slash, colon and percent escapes with upper-case digits only |
| `PercentCodec.EncodedByteIs` | apps/desktop/src-tauri/src/language_server.rs:1304-1314 | ASCII letters, digits and / : - _ . ~ are copied; every other byte becomes a percent sign and its two upper-case digits |
| `PercentCodec.PercentRoundTrip` | apps/desktop/src-tauri/src/language_server.rs:1304-1341 | both decoders return the encoded bytes exactly when they are UTF-8 |
| `PercentCodec.PairsAgree` | crates/repodesk-core/src/code_library.rs:326-348 | on one escape the decoders differ only when its first character is a plus sign |
| `PercentCodec.DecodersAgree` | crates/repodesk-core/src/code_library.rs:326-348 | on every input the session decoder is the library decoder, except that it fails on inputs containing %+ |
| `PercentCodec.DecodersDisagreeExactly` | crates/repodesk-core/src/code_library.rs:326-348 | the results differ exactly on inputs that contain %+ and that the library decoder accepts |
| `PercentCodec.DecodersDisagreeOnPlus` | apps/desktop/src-tauri/src/language_server.rs:1334-1341 | a concrete input one decoder accepts and the other rejects |
| `PercentCodec.PairsReadBothCasings` | apps/desktop/src-tauri/src/language_server.rs:1334-1341 | both decoders read two hexadecimal digits of either casing as the byte they stand for |
| `PercentCodec.PairsReadOnlyDigits` | apps/desktop/src-tauri/src/language_server.rs:1316-1341 | the session decoder reads an escape as a byte exactly when its characters are hexadecimal digits of that byte |
| `Utf8.ValidExactlyEncodings` | apps/desktop/src-tauri/src/language_server.rs:1331 | a byte string passes as UTF-8 exactly when it is the encoding of some sequence of scalar values (RFC 3629, section 3) |
| `Installer.RunKeepsInv` | crates/repodesk-core/src/language_tools.rs:446-523 | on every interleaving jobs, tokens and writes stay well-formed |
| `Installer.OnlyVerifiedInstallsWrite` | crates/repodesk-core/src/language_tools.rs:545-743 | a destination is written, and Ready reported, only by a job whose installer and probe succeeded; no token ever makes two jobs |
| `Installer.CancelledNeverInstalls` | crates/repodesk-core/src/language_tools.rs:525-534 | a cancel flag set before the check after the probe rules out Ready and any destination change for the rest of the run |
| `Installer.ExclusiveExactlyWhenEntriesClean` | crates/repodesk-core/src/language_tools.rs:485-505 | a run never has two installs of one recipe at once exactly when no insertion meets a running recipe |
| `Installer.SplitCheckRaces` | crates/repodesk-core/src/language_tools.rs:485-505 | a run of the program in which two installs of one recipe run at once and cancelling misses the first |
| `Installer.OwnedExactlyWhenEntriesClean` | crates/repodesk-core/src/language_tools.rs:485-534 | a run keeps the cancel flag of every active install under its recipe's entry exactly when no insertion meets a running recipe |
| `Installer.CancelReachesExactlyWhenJoined` | crates/repodesk-core/src/language_tools.rs:485-534 | cancelling a recipe reaches every running install of it, on every run, exactly when check and insertion are one step |
| `Installer.ExclusiveExactlyWhenJoined` | crates/repodesk-core/src/language_tools.rs:485-505 | one install per recipe holds on every run exactly when check and insertion are one step |
| `Installer.JoinedIsExclusive` | crates/repodesk-core/src/language_tools.rs:485-505 | were they one step, no run would overlap two installs of one recipe |
| `InstallHistory.InstallsAreConfirmed` | crates/repodesk-core/src/language_tools.rs:452-484 | on every run, an install in any phase but rejected came from taking an unexpired token of a usable preview that was made before |
| `InstallHistory.BadTokensAreRejected` | crates/repodesk-core/src/language_tools.rs:465-484 | taking a token starts an install exactly when it is unexpired and its preview usable; otherwise the install never runs a command, never writes and never ends Ready, for the rest of the run |
| `InstallHistory.InstallMeans` | crates/repodesk-core/src/language_tools.rs:485-534 | on every run an install has an outcome exactly when that command ran in its turn, its flag exactly when its recipe was cancelled while the table held it, is past the running check exactly when its recipe was not running, and has ended with a result exactly when it left with it |
| `Installer.InstallService.PreviewInstall` | crates/repodesk-core/src/language_tools.rs:320-421 | mints a fresh token for the preview |
| `Installer.InstallService.TakeToken` | crates/repodesk-core/src/language_tools.rs:446-484 | consumes the token, whatever then happens, and starts a job only for one that was pending |
| `Installer.InstallService.CheckRunning` | crates/repodesk-core/src/language_tools.rs:485-497 | admits the job exactly when its recipe is not running at that moment |
| `Installer.InstallService.EnterRunning` | crates/repodesk-core/src/language_tools.rs:499-505 | inserts the job's own cancel flag without looking again |
| `Installer.InstallService.LeaveRunning` | crates/repodesk-core/src/language_tools.rs:518-522 | removes the recipe from the running table, whichever job it names |
| `Installer.InstallService.Cancel` | crates/repodesk-core/src/language_tools.rs:525-534 | sets the flag of the job in the running table, if any |
| `Promotion.ToolDirectory.PromoteDirectory` | crates/repodesk-core/src/language_tools.rs:1017-1043 | with the directories to itself, after every single file operation, failing or not, the destination holds the old or new tree or the backup holds the old one |
| `Promotion.SoloRunIsPromote` | crates/repodesk-core/src/language_tools.rs:1017-1043 | the single file operations, run without interruption, are exactly that promotion under every fault pattern |
| `Promotions.UninterruptedKeepsPromise` | crates/repodesk-core/src/language_tools.rs:1017-1043 | among any number of promotions of one destination and under every fault pattern, one that no other interrupts between its first and last operation keeps old, new or backup at every point |
| `Promotions.InterruptionBreaks` | crates/repodesk-core/src/language_tools.rs:1017-1043 | interrupted in any one phase, a promotion can lose old, new and backup at once |
| `Promotions.KeptExactlyWhenClosed` | crates/repodesk-core/src/language_tools.rs:1017-1043 | from every disk and on every run each promotion keeps old, new or backup exactly when no other promotion of that destination may operate in any phase between its first and last operation |
| `Promotions.ConcurrentPromotionsLoseInstallation` | crates/repodesk-core/src/language_tools.rs:1017-1043 | a run in which the second promotion removes the first one's backup, both fail, and no tree is left |
| `PromotionSuccess.BlockedOperations` | crates/repodesk-core/src/language_tools.rs:1017-1043 | removing or renaming what another promotion has taken away, or onto a directory with files, changes nothing and is reported |
| `PromotionSuccess.SuccessMeans` | crates/repodesk-core/src/language_tools.rs:1017-1043 | on every run, a promotion that reports success has put its staged tree in place and afterwards found or left no backup |
| `InstallRuns.KeptExactlyWhenJoined` | crates/repodesk-core/src/language_tools.rs:485-505 | on every run of installs of any recipes, from every disk, each promotion keeps old, new or backup exactly when the running check and the insertion are one step |
| `InstallRuns.RacingInstallsLoseTree` | crates/repodesk-core/src/language_tools.rs:485-505 | in the program, two raced installs reach a state with neither tree in place nor in the backup |
| `InstallRuns.OnlyVerifiedInstallsOperate` | crates/repodesk-core/src/language_tools.rs:545-743 | in every run the directories change only by operations of a managed install whose installer and probe succeeded |
| `InstallRuns.CancelledNeverOperates` | crates/repodesk-core/src/language_tools.rs:525-534 | an install cancelled before the check after its probe performs no file operation in the rest of the run |
| `Promotion.PromotionOutcome` | crates/repodesk-core/src/language_tools.rs:1017-1043 | success means exactly the new tree and nothing else; each failure leaves one of the listed arrangements |
| `Promotion.SurvivesExactlyFromDestination` | crates/repodesk-core/src/language_tools.rs:1017-1043 | some tree survives every pattern of failures exactly when the destination was present |
| `Promotion.RetryCanLoseInstallation` | crates/repodesk-core/src/language_tools.rs:1017-1043 | two failing promotions in a row can lose the installation |
| `Promotion.SurvivesOneRetryExactly` | crates/repodesk-core/src/language_tools.rs:1017-1043 | from an installation in place some tree survives n promotions in a row, whatever fails, exactly when n is at most one |
| `Execution.ExecutePending` | crates/repodesk-core/src/language_tools.rs:545-743 | the destination is untouched unless installer, executable check and probe succeed uncancelled; Cancelled is returned exactly when a cancellation is noticed; Ready means the staged tree is in place |
| `Execution.ExecutionIsServiceRun` | crates/repodesk-core/src/language_tools.rs:545-743 | the execution is the run of the service's steps for its job: same result, and a write exactly when it promotes |
| `ProjectSearch.FindsEveryOccurrence` | crates/repodesk-core/src/code_workspace_search.rs:169-175 | every occurrence of the literal is reported or overlaps a reported one starting no later |
| `ProjectSearch.FindsDisjoint` | crates/repodesk-core/src/code_workspace_search.rs:169-175 | reported occurrences increase and do not overlap |
| `ProjectSearch.PreviewShowsMatch` | crates/repodesk-core/src/code_workspace_search.rs:302-324 | the preview of a long line has exactly max(220, match length) characters before ellipses and shows the match inside |
| `ProjectSearch.MatchesAreOrdered` | crates/repodesk-core/src/code_workspace_search.rs:221-300 | within a file the full list is ordered by line, then column, without overlap |
| `SearchMeaning.TextMatchesAre` | crates/repodesk-core/src/code_workspace_search.rs:279-291 | every match of a text has a line, column and end column that delimit text equal to the query under the folding, and the preview the source promises, for lines of any length |
| `SearchMeaning.PreviewContainsMatch` | crates/repodesk-core/src/code_workspace_search.rs:302-324 | a preview is the whole line when it fits and otherwise a window around the match, and always contains the matched text |
| `SearchMeaning.TextIsCovered` | crates/repodesk-core/src/code_workspace_search.rs:279-291 | wherever the query occurs in a line of the text, a reported match of that line covers its start |
| `SearchMeaning.AllMatchesAre` | crates/repodesk-core/src/code_workspace_search.rs:249-297 | the full list holds exactly the matches of files that are not blocked, not deleted, at most 524288 bytes long and readable |
| `SearchMeaning.ReportedMatchesAre` | crates/repodesk-core/src/code_workspace_search.rs:249-297 | every match reported by a search is a match, in that sense, in a searched file |
| `SearchMeaning.LinesSplit` | crates/repodesk-core/src/code_workspace_search.rs:279 | the lines are the text cut at line feeds, without one carriage return before each and without an empty last line |
| `ProjectSearch.ScanLine` | crates/repodesk-core/src/code_workspace_search.rs:280-296 | appends a prefix of the line's matches, all of them unless the limit is reached |
| `ProjectSearch.ScanText` | crates/repodesk-core/src/code_workspace_search.rs:279-297 | appends a prefix of the file's matches, all of them unless the limit is reached |
| `ProjectSearch.VisitFile` | crates/repodesk-core/src/code_workspace_search.rs:249-297 | skips exactly what is closed to searching or unreadable, stops exactly at a file that by its indexed or read size would exceed the byte budget, and otherwise scans it, with exact counters |
| `ProjectSearch.SearchIndexedWorkspace` | crates/repodesk-core/src/code_workspace_search.rs:221-300 | the result is a prefix of the full file/line/column list within both budgets, ends early only at the limit or at a file that would exceed the budget, counts files and bytes exactly, and says "not truncated" exactly when every match is reported, the limit was not reached, the index was whole and scanned plus skipped equals all files |
| `Subsequence.SubsequenceGap` | crates/repodesk-core/src/code_workspace_search.rs:414-433 | answers exactly when the query is a subsequence; every position is the earliest of any embedding; the subtraction never underflows |
| `Subsequence.EarliestExtends` | crates/repodesk-core/src/code_workspace_search.rs:421-430 | the next first occurrence extends an earliest embedding to an earliest embedding |
| `Subsequence.EarliestStops` | crates/repodesk-core/src/code_workspace_search.rs:421-430 | when the greedy search stops, no embedding of the whole query exists |
| `Subsequence.ZeroGapIsContiguous` | crates/repodesk-core/src/code_workspace_search.rs:432-432 | an embedding has gap zero exactly when the query stands contiguously in the text |
| `Tee.Sink.WriteAll` | crates/repodesk-core/src/process_io.rs:85-97 | a failed write may leave any prefix of its bytes, and no call follows a failure |
| `Tee.DrainBoundedBytes` | crates/repodesk-core/src/process_io.rs:23-46 | keeps exactly the first max bytes however the stream is chunked, and flags truncation exactly when there were more |
| `Tee.DrainBoundedToWriter` | crates/repodesk-core/src/process_io.rs:57-112 | for every chunking and failure pattern: retained bytes depend on the stream alone, the file holds a prefix within its budget, and "not truncated" is reported exactly when the whole stream was written and flushed |
| `Csv.SplitSimpleCsv` | crates/repodesk-core/src/utils.rs:22-48 | the character loop computes the reader the round trip is about |
| `CsvReading.SplitMeans` | crates/repodesk-core/src/utils.rs:22-48 | on every line, well-formed or not: a comma separates exactly after an even number of quotes, every other character is kept, and of the quotes exactly those that follow one standing after an odd number |
| `Csv.FieldScan` | crates/repodesk-core/src/utils.rs:12-20 | reading an escaped field consumes exactly it and yields its value, quotes, commas and line breaks included |
| `Csv.CsvRoundTrip` | crates/repodesk-core/src/utils.rs:12-48 | splitting the printed line returns the fields exactly when there is at least one |
| `Csv.QuotedExactlyWhenNeeded` | crates/repodesk-core/src/utils.rs:12-20 | a field is printed bare exactly when it holds no comma, quote or line feed, and then as it is |
| `Slugs.SlugifyNormalises` | crates/repodesk-core/src/custom_providers.rs:185-202 | the result is always a slug, and a value is unchanged exactly when it is one already |
| `Slugs.CredentialKeyInjective` | crates/repodesk-core/src/custom_providers.rs:207-209 | two ids share a keychain entry exactly when they share a slug |
| `SlugLaws.SlugOfOneWord` | crates/repodesk-core/src/custom_providers.rs:185-202 | a word of ASCII letters and digits becomes its small form, letter by letter |
| `SlugLaws.SlugOfTwo` | crates/repodesk-core/src/custom_providers.rs:185-202 | any run of other characters between two values that have letters or digits becomes one dash between their slugs |
| `SlugLaws.SlugIgnoresOuterSeparators` | crates/repodesk-core/src/custom_providers.rs:185-202 | other characters at either end of a value leave no trace in its slug |
| `SlugLaws.SlugOfNothing` | crates/repodesk-core/src/custom_providers.rs:197-199 | a value without letters and digits becomes provider |
| `Providers.ProviderStore.SetSecret` | crates/repodesk-core/src/custom_providers.rs:272-281 | one keychain write or delete that works, errs, or silently does nothing |
| `Providers.ProviderStore.MigrateEntry` | crates/repodesk-core/src/custom_providers.rs:229-246 | one plaintext key is written and read back before it is cleared |
| `Providers.ProviderStore.MigratePlaintext` | crates/repodesk-core/src/custom_providers.rs:229-246 | the loop moves keys one by one and stops at the first failure |
| `Providers.ProviderStore.LoadWithMigration` | crates/repodesk-core/src/custom_providers.rs:248-259 | saves the metadata only when something moved |
| `Providers.ProviderStore.CommitChange` | crates/repodesk-core/src/custom_providers.rs:300-337 | secret first, verified, then metadata, then rollback when the save fails |
| `Providers.ProviderStore.SaveProvider` | crates/repodesk-core/src/custom_providers.rs:283-339 | validates, migrates, upserts by slug and commits |
| `Providers.ProviderStore.DeleteProvider` | crates/repodesk-core/src/custom_providers.rs:341-374 | migrates, removes by slug or reports a missing provider, and commits |
| `Providers.MigrationKeepsSecrets` | crates/repodesk-core/src/custom_providers.rs:229-259 | whatever fails, every plaintext secret is afterwards still on disk or verified in the keychain |
| `Providers.MigrationExact` | crates/repodesk-core/src/custom_providers.rs:229-259 | without failures no secret is lost exactly when entries sharing a slug share their secret |
| `Providers.NothingToMigrate` | crates/repodesk-core/src/custom_providers.rs:248-259 | without plaintext nothing changes, whatever the keychain would do |
| `Providers.SecondMigrationIsNoOp` | crates/repodesk-core/src/custom_providers.rs:248-259 | after a successful load the next one changes nothing |
| `Providers.RunKeepsWell` | crates/repodesk-core/src/custom_providers.rs:283-374 | in every state reached from an empty configuration stored ids are unique slugs and no key is on disk |
| `Providers.OthersUntouched` | crates/repodesk-core/src/custom_providers.rs:283-374 | in every state reached by calls one after the other, saving or deleting one provider leaves every other entry and secret as it was |
| `ProviderRuns.OthersSurviveExactlyWhenJoined` | crates/repodesk-core/src/custom_providers.rs:283-374 | with calls interleaved, every call leaves the providers it does not name alone on all runs exactly when loading and committing are one step |
| `ProviderRuns.SecondSaveUndoesFirst` | crates/repodesk-core/src/custom_providers.rs:299-326 | two saves that both load before either commits: the second removes the first one's entry |
| `ProviderRuns.RunKeeps` | crates/repodesk-core/src/custom_providers.rs:283-374 | however calls interleave and whatever fails, stored ids are unique slugs and no key is on disk |
| `ProviderRuns.CommitsWhatItLoaded` | crates/repodesk-core/src/custom_providers.rs:283-374 | on every interleaving a call about to commit holds exactly the configuration its own earlier load returned |
| `ProviderRuns.EachStepOnce` | crates/repodesk-core/src/custom_providers.rs:283-374 | a call loads once and commits at most once, and a refused or failed load ends it |
| `Providers.CommitIsAllOrNothing` | crates/repodesk-core/src/custom_providers.rs:300-337 | for every fault pattern: a change goes through exactly under the stated condition and then installs secret and metadata together; otherwise the metadata is unchanged, and the secret exactly when the change was undone |
| `Providers.SaveIsAllOrNothing` | crates/repodesk-core/src/custom_providers.rs:283-339 | the same for saving in every reached state, where it leaves everything unchanged exactly when refused, unloadable or undone |
| `Providers.DeleteIsAllOrNothing` | crates/repodesk-core/src/custom_providers.rs:341-374 | the same for deleting in every reached state, refused also when there is no such entry |
| `SavedProviders.SaveStores` | crates/repodesk-core/src/custom_providers.rs:283-339 | in every reached state a save that goes through leaves the saved entry on disk under its slug, without its key and as the only one with its id; every other entry keeps its place, the list grows exactly when the id was new, and only its keychain slot changes, to the trimmed key or to nothing |
| `SavedProviders.DeleteDrops` | crates/repodesk-core/src/custom_providers.rs:341-374 | in every reached state a delete that goes through drops exactly the entry with that slug, keeps the others in order and empties only its keychain slot |
| `SavedProviders.ReturnedListShowsSecrets` | crates/repodesk-core/src/custom_providers.rs:261-270 | the returned list is the stored one with each key filled in from its own keychain slot |
| `SavedProviders.LoadedMeansVerified` | crates/repodesk-core/src/custom_providers.rs:229-259 | a configuration is loaded only when every plaintext key was written without error and read back and the stripped file saved; without faults it is; its entries are the stored ones without keys |
| `SavedProviders.CommitErrorsMean` | crates/repodesk-core/src/custom_providers.rs:300-337 | what each error of a guarded change says about the faults and about what was left behind |
| `SavedProviders.SaveRefusedExactly` | crates/repodesk-core/src/custom_providers.rs:283-295 | a save is refused as invalid exactly when its label is blank or its base URL was rejected |
| `SavedProviders.DeleteMissesExactly` | crates/repodesk-core/src/custom_providers.rs:341-352 | a delete that loaded its configuration finds nothing exactly when no entry has the slug of the id |
| `Providers.SilentRollbackDiverges` | crates/repodesk-core/src/custom_providers.rs:272-281 | a rollback that claims success without effect leaves the new secret beside the old metadata |
| `Providers.UnverifiedWriteStays` | crates/repodesk-core/src/custom_providers.rs:211-223 | a secret that is written but cannot be read back stays beside the old metadata, with no rollback |
| `LegacyProviders.SlotsStayUniqueExactly` | crates/repodesk-core/src/custom_providers.rs:283-374 | from any configuration, all runs keep one entry per keychain slot exactly when its ids are slugs, each used once |
| `LegacyProviders.SharedSlotReplacesSecret` | crates/repodesk-core/src/custom_providers.rs:320-324 | beside an entry whose id is not a slug, saving under its slug adds a second entry on its slot and replaces the secret there |
| `LegacyProviders.UnnamedEntriesStay` | crates/repodesk-core/src/custom_providers.rs:283-374 | from any configuration, an entry stays, its key apart, through every run that does not name its id |
| `LegacyProviders.NonSlugEntriesStay` | crates/repodesk-core/src/custom_providers.rs:341-352 | an entry whose id is not a slug can be neither replaced nor deleted by any run |
| `LegacyProviders.DeletableExactlySlugs` | crates/repodesk-core/src/custom_providers.rs:341-374 | some run removes an entry of a configuration exactly when its id is a slug |
| `LegacyProviders.SecretsOutliveExactly` | crates/repodesk-core/src/custom_providers.rs:229-374 | under all faults, every plaintext secret stays on disk or in its slot through all runs that do not name its slug, exactly when entries sharing a slug share their secret |
| `Quit.QuitCoordinator.MakeRequest` | apps/desktop/src-tauri/src/quit.rs:25-33 | publishes the next id, saturating, and clears the acknowledgement |
| `Quit.QuitCoordinator.AcknowledgeRequest` | apps/desktop/src-tauri/src/quit.rs:35-42 | succeeds exactly for the pending non-zero id |
| `Quit.QuitCoordinator.CompleteRequest` | apps/desktop/src-tauri/src/quit.rs:44-53 | succeeds exactly when the id is pending and acknowledged, and clears both |
| `Quit.QuitCoordinator.CancelRequest` | apps/desktop/src-tauri/src/quit.rs:55-62 | succeeds exactly for the pending id, and clears both |
| `Quit.QuitCoordinator.ShouldForce` | apps/desktop/src-tauri/src/quit.rs:64-67 | true exactly when the id is pending and not acknowledged |
| `Quit.AcknowledgeDisablesForce` | apps/desktop/src-tauri/src/quit.rs:24-68 | once a request is acknowledged the forced exit is off for it in all later states |
| `Quit.CompleteFollowsAcknowledge` | apps/desktop/src-tauri/src/quit.rs:24-68 | a completion of a non-zero id follows its acknowledgement with no cancel, completion or newer request between |
| `Quit.CompletesAtMostOnce` | apps/desktop/src-tauri/src/quit.rs:24-68 | no non-zero request completes twice while ids last |
| `Quit.CompleteZeroWhenIdle` | apps/desktop/src-tauri/src/quit.rs:44-53 | completing id zero succeeds exactly when nothing is pending |
| `Quit.IdsRunOut` | apps/desktop/src-tauri/src/quit.rs:25-33 | a run of 2^64 requests in which the largest id completes twice |
| `Quit.AtMostOnceExactlyWhileIdsLast` | apps/desktop/src-tauri/src/quit.rs:24-68 | runs of at most n requests complete every non-zero id at most once exactly when n is below 2^64 |
| `Quit.AcknowledgementsHoldExactlyWhileIdsLast` | apps/desktop/src-tauri/src/quit.rs:24-68 | in all runs of at most n requests every successful acknowledgement keeps the forced exit off ever after, exactly when n is below 2^64 |
| `QuitResults.AnswersMean` | apps/desktop/src-tauri/src/quit.rs:24-68 | on every run and for every non-zero id: acknowledge and cancel answer true exactly while that request is open, complete exactly while it is open and acknowledged, and the exit is forced exactly while it is open and not acknowledged |
| `QuitResults.CancelTrueExactly` | apps/desktop/src-tauri/src/quit.rs:55-62 | on every interleaving of single accesses a cancel answers true exactly when its load found its id pending |
| `QuitResults.CallsKeepKind` | apps/desktop/src-tauri/src/quit.rs:24-68 | on every interleaving of single accesses a call keeps its kind and the id it was made with |
| `QuitInterleaved.CompletionWasAcknowledged` | apps/desktop/src-tauri/src/quit.rs:24-68 | with every load and store a step, a true completion of a non-zero id still implies that some acknowledge saw it pending, after it was published |
| `QuitInterleaved.CompletesTwice` | apps/desktop/src-tauri/src/quit.rs:44-53 | at that granularity two completions of one request can both return true |
| `QuitInterleaved.CleanCompletesOnce` | apps/desktop/src-tauri/src/quit.rs:44-53 | on every run, when each completion that clears the pending request still finds its own id there, at most one completion of that id returns true |
| `QuitInterleaved.AtMostOnceExactlyWhenTaken` | apps/desktop/src-tauri/src/quit.rs:44-53 | whatever else is one step, all runs of at most 2^64 - 1 requests complete each non-zero id at most once exactly when a completion takes the request in one step |
| `QuitForce.ForceStaysOffExactly` | apps/desktop/src-tauri/src/quit.rs:24-68 | after a successful acknowledgement there is no instant at which its id is pending and not acknowledged, exactly when no later step wipes the acknowledgement while that id is pending |
| `QuitForce.NeverForcedExactlyWhenSettling` | apps/desktop/src-tauri/src/quit.rs:24-68 | on all runs of at most 2^64 - 1 requests no call of `should_force_exit` made after an acknowledgement of its id succeeded returns true, exactly when the two stores of a request, the load and store of an acknowledgement, the two stores of a withdrawal and the two loads of the call are each one step |
| `QuitForce.ReturnsTrueExactly` | apps/desktop/src-tauri/src/quit.rs:64-67 | on one run, such a call returns true exactly when its first load finds the id pending and, by its second, the acknowledgement has been overwritten and not renewed, whatever is pending by then |
| `QuitForce.CancelBetweenForces` | apps/desktop/src-tauri/src/quit.rs:55-67 | a cancellation between the two loads makes the call return true for an acknowledged request |
| `QuitForce.ProgramBreaks` | apps/desktop/src-tauri/src/quit.rs:24-68 | in the program, with no accesses joined, such a call can return true, a late cancel can wipe an acknowledgement, and two completions can both succeed |
| `QuitForce.LateCancelForces` | apps/desktop/src-tauri/src/quit.rs:55-67 | the last store of cancelling request 1 can leave request 2 pending and unacknowledged after its acknowledgement succeeded |
| `Tokens.CountLine` | crates/repodesk-core/src/tokens.rs:309-329 | the inner loop adds the line's character counts |
| `Tokens.AnalyzeBreakdown` | crates/repodesk-core/src/tokens.rs:286-333 | the loops compute the class lengths and character counts of the whole text |
| `Tokens.ClassesPartitionLines` | crates/repodesk-core/src/tokens.rs:286-333 | code, markdown and prose characters sum to the lengths of the lines |
| `Tokens.SymbolsAndCyrillicDisjoint` | crates/repodesk-core/src/tokens.rs:389-395 | symbol-heavy and Cyrillic characters together never exceed the characters |
| `Tokens.LinesNoLongerThanText` | crates/repodesk-core/src/tokens.rs:286-333 | splitting into lines only drops terminators |
| `Tokens.PerCharacterCost` | crates/repodesk-core/src/tokens.rs:27-60 | no language model charges more than half a token a character |
| `Tokens.WeightedBound` | crates/repodesk-core/src/tokens.rs:150-175 | the weighted estimate of any text is at most half its characters rounded up |
| `Tokens.EstimateTextForLanguage` | crates/repodesk-core/src/tokens.rs:150-175 | for n > 0 characters and every language, max(1, n/3) <= tokens <= ceil(n/2), and the exact value |
| `Tokens.ModelsByLanguage` | crates/repodesk-core/src/tokens.rs:27-60 | which language names, in any casing, get which characters per token and which symbol divisor, and that every other name gets the general ones |
| `TokenClasses.CharacterClasses` | crates/repodesk-core/src/tokens.rs:389-395 | which characters count as Cyrillic, symbols, letters and digits |
| `TokenClasses.MarkdownLineIs` | crates/repodesk-core/src/tokens.rs:335-344 | a line is Markdown exactly when one of six markers follows its leading white space |
| `TokenClasses.CodeLikeLineIs` | crates/repodesk-core/src/tokens.rs:346-387 | a line is code exactly when it opens with one of eighteen keywords, a space and something more, or has three code symbols |
| `TokenClasses.CostOfOneMore` | crates/repodesk-core/src/tokens.rs:162-168 | nothing costs nothing, and one more character, symbol or Cyrillic letter costs exactly its share |
| `DocumentSave.ReplacedWhatItOpened` | crates/repodesk-core/src/code_workspace.rs:262-298 | on every run, a save that replaced the file was prepared and found the opened content on disk at its second comparison |
| `DocumentSave.EarlierWriteSurvives` | crates/repodesk-core/src/code_workspace.rs:283-290 | a write landing before that comparison leaves the disk unchanged there, and the save replaces the file at no step of the run |
| `DocumentSave.ReplacementIsNew` | crates/repodesk-core/src/code_workspace.rs:196-239 | a replacement installs the save's own content, which differs from what it expected |
| `DocumentSave.OnlyReplacingWrites` | crates/repodesk-core/src/code_workspace.rs:262-298 | on every run, a step of a save changes the disk only by replacing the file |
| `DocumentSave.LostExactlyWhenChangedLate` | crates/repodesk-core/src/code_workspace.rs:283-295 | a replacement loses an update exactly when the disk changed between comparison and rename |
| `DocumentSave.LateWriteIsLost` | crates/repodesk-core/src/code_workspace.rs:283-295 | a concrete run in which a write in that window is overwritten |
| `DocumentSave.SafeExactlyWhenJoined` | crates/repodesk-core/src/code_workspace.rs:283-295 | no run loses an update exactly when comparison and rename are one step |
| `DocumentSave.SameFingerprintNeedsRestore` | crates/repodesk-core/src/code_workspace.rs:217-224 | two changed saves carrying the same fingerprint need that content restored between them, unless the second loses an update |
| `DocumentSave.TwoSavesOneFingerprint` | crates/repodesk-core/src/code_workspace.rs:283-295 | a concrete run in which two saves replace the file on one fingerprint and the first is lost |
| `DocumentSave.NeedsRestoreExactlyWhenJoined` | crates/repodesk-core/src/code_workspace.rs:283-295 | on every run, two changed saves carrying the same fingerprint have that content restored between them, exactly when comparison and rename are one step |
| `DocumentSave.RestoredExactly` | crates/repodesk-core/src/code_workspace.rs:217-295 | two saves on one fingerprint have its content put back between their replacements exactly when the second compares after the first replaces, or some write puts that content there in between |
| `DocumentSave.ErrorHidesReplacementExactly` | crates/repodesk-core/src/code_workspace.rs:262-298 | on every run, a save that ended with an error has replaced the file exactly when its rename worked and then the directory sync or the read-back failed |
| `DocumentSave.ErrorAfterReplacement` | crates/repodesk-core/src/code_workspace.rs:292-296 | a concrete run in which a save replaces the file and reports an error |
| `DocumentSave.EditableFile.SaveDocument` | crates/repodesk-core/src/code_workspace.rs:196-298 | replaces the file exactly when it is as opened at both comparisons and the new content differs and is savable; no other outcome writes |
| `SaveChecks.RefusedExactly` | crates/repodesk-core/src/code_workspace.rs:196-209 | on every run a save is refused as invalid exactly when its content has a NUL or more than 524288 bytes, or it read a file that has, or that is not UTF-8 |
| `SaveChecks.WrittenIsEditable` | crates/repodesk-core/src/code_workspace.rs:196-298 | on every run, text that a save puts in place can be opened again |
| `Drafts.DraftStore.SaveDraft` | crates/repodesk-core/src/code_drafts.rs:109-150 | stores a record with the content's own fingerprint; a failed directory sync is reported although the draft is stored |
| `Drafts.DraftStore.LoadDraft` | crates/repodesk-core/src/code_drafts.rs:152-195 | recovers a valid draft as Safe or Conflict, and discards an invalid or obsolete one |
| `Drafts.DraftStore.DeleteDraft` | crates/repodesk-core/src/code_drafts.rs:197-211 | removes that draft only, and tells missing from failing |
| `Drafts.DraftPersists` | crates/repodesk-core/src/code_drafts.rs:109-211 | a stored draft survives any run of events that spare it |
| `Drafts.SavedDraftRecovers` | crates/repodesk-core/src/code_drafts.rs:109-225 | after any such run it loads back as Safe exactly when its base matches the disk and its content differs, as Conflict exactly when neither matches, and as nothing exactly when its content is on disk |
| `Drafts.LoadIsConfined` | crates/repodesk-core/src/code_drafts.rs:152-225 | only a valid record of this project and path is recovered, and no other draft is touched |
| `SaveChecks.RecoveredExactly` | crates/repodesk-core/src/code_drafts.rs:152-225 | a draft is recovered exactly from a readable, intact version 1 record of this project and path that differs from the file, and as safe exactly when the file is what it was based on |
| `SaveChecks.LoadRemovesExactly` | crates/repodesk-core/src/code_drafts.rs:163-182 | a load removes this cache file exactly when it is readable and there is nothing to recover from it, and no other file |
| `SaveChecks.DeletedIsGone` | crates/repodesk-core/src/code_drafts.rs:197-211 | a deleted draft is no longer stored, and every other one is as before |
| `Attribution.ExactClaims` | crates/repodesk-core/src/change_attribution.rs:118-233 | an exact claim is made exactly when every contributor makes that same claim on one shared non-empty baseline |
| `Attribution.WeakestProofWins` | crates/repodesk-core/src/change_attribution.rs:118-233 | the combination never claims more than any contributor |
| `Attribution.AggregateIgnoresOrder` | crates/repodesk-core/src/change_attribution.rs:118-244 | the order of contributors does not matter |
| `Attribution.CommonBaselineMeans` | crates/repodesk-core/src/change_attribution.rs:235-244 | a common baseline is found exactly when all contributors name the same non-empty one |
| `Attribution.ClassifiedExact` | crates/repodesk-core/src/change_attribution.rs:44-110 | a step is exact exactly on complete evidence from its own worktree with identity and baseline present, and is then a fixed point of aggregation |
| `Attribution.ClassifiedNames` | crates/repodesk-core/src/change_attribution.rs:44-110 | the evidence of a step names the trimmed workspace id and base commit of its own worktree, each exactly when present, and no other |
| `CombinedEvidence.StrengthMeans` | crates/repodesk-core/src/change_attribution.rs:118-233 | for any contributors, an iff for each claimed strength: exact only for one mechanism on one baseline, manual only when all are, derived only without manual or unattributed ones, legacy for none or any legacy one |
| `CombinedEvidence.NamesMean` | crates/repodesk-core/src/change_attribution.rs:118-244 | the workspace is named only for a single exact contributor, the baseline exactly when all contributors are exact or derived and share it |

## Left out

- RequestTable.Session.IssueId: does not model the readiness check before an id is taken; any caller may issue at any time, so the table's properties hold for more runs than the program has.
- ProjectSearch.VisitFile: the byte counter wraps around like an optimised build, which can happen only for a byte budget equal to the largest u64; a build that checks overflow would stop there instead.
- ProjectSearch.SearchIndexedWorkspace: states the exact truncation equivalence for a positive limit; callers clamp the limit to at least one.
- Providers.ProviderStore.LoadWithMigration: saving the configuration file is one step that either happens or does not.
- ProviderRuns.OthersSurviveExactlyWhenJoined: loading with its migration is one step and committing is one step; keychain accesses of other calls within them are not modelled, and only new configurations, without plaintext keys, are covered.
- Providers.ProviderStore.CommitChange: reading the secrets for the returned list works or fails as a whole, as any one failing read makes the operation fail.
- DocumentSave.EditableFile.SaveDocument: re-reading the document after an unchanged save is not modelled, and the expected fingerprint is taken after trimming.
- Drafts.DraftStore.LoadDraft: path guarding and canonicalisation happen before the model; cache files are named injectively by project and path.
- Execution.ExecutePending: clearing the staging directory after a failure is taken to work; its error is ignored by the program, and what it leaves is removed before the next run.
- Promotions.KeptExactlyWhenClosed: a recursive removal is one operation that removes everything or leaves some of the files, and an existence check always answers truthfully.
- Ranking of quick-open results (`rank_quick_open_results`, `match_rank`, `compare_rank`): a comparator over flat keys and a sort that would repeat the packing proofs.
- Collecting document symbols (`collect_symbol`), git status parsing (`parse_porcelain_z`), library grants with a time limit (`CodeLibraryRegistry`): parsing and bookkeeping without an invariant across calls as strong as those proved.
- Language detection, status thresholds and explanations of token estimates: the bound is proved for every language name instead.
- Server-to-client requests, diagnostics and every JSON payload: bodies are opaque byte strings.
- Install status records and their observers: they report and never decide.
- Poisoned locks: a thread that panics inside a locked section is outside the model.
- Floating point: scores and estimates are exact real numbers, and NaN is excluded.
- SHA-256 is a free injection of the content; malformed or foreign fingerprints are separate values.
- Case-insensitive search is a character folding given with the query; the regular-expression engine is not modelled.
- Base URL validation is an input of saving a provider; timestamps, provenance kinds and reason texts do not appear.
- Process spawning, threads, operating-system keychains, file systems, Tauri commands and events: only their outcomes appear, as inputs.
