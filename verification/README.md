# A verified model of the retrieval pipeline

This project models, in Dafny, the parts of Universal RAG in which a small mistake is hardest to
see: the reversible sanitizer that replaces detected values by markers and puts them back, the
incremental indexer that keeps a manifest and a Qdrant collection in step while writes fail, the
two bounded in-memory caches, the offset arithmetic of chunks, pages, windows and excerpts, and
the file bridge and loop through which an untrusted provider is asked. `dafny verify
dfyconfig.toml` checks everything.

Code of the repository that computes a value by expressions is a function here. Code that loops
or updates an object is a method or a class, and each such method is proved equal to a function
on values; the properties are lemmas about those functions, so they hold of the methods. Where a
write may fail or the process may die, the failure is data: the indexer runs under an arbitrary
script of faults, the bridge is cut off after an arbitrary number of writes.

| file | what it models |
|---|---|
| `Common.dfy`, `Text.dfy`, `Scanner.dfy`, `Sorting.dfy` | shared definitions, white space and numerals, leftmost-first matching, stable sorting and the greedy choice |
| `Markers.dfy` | the two marker expressions and the printing of markers |
| `Spans.dfy` | `merge_spans` |
| `Normalization.dfy` | surname normalization, with the shipped tables |
| `Vault.dfy` | `MarkerState`, `mark_literal`, and the vault after `load_state` |
| `Weaving.dfy`, `Gateway.dfy`, `RoundTrip.dfy` | `sanitize_with_spans`, `restore`, and their round trip |
| `Propagation.dfy`, `Context.dfy`, `Shadows.dfy` | re-applied aliases, `ContextAssembler.sanitize`, and the occurrences that both leave in place |
| `Stores.dfy`, `Indexer.dfy`, `IndexBuild.dfy` | manifest, Qdrant and the build, on values and on mutable stores |
| `IndexSafety.dfy`, `IndexFailures.dfy`, `IndexRecovery.dfy`, `IndexRerun.dfy`, `IndexMasked.dfy` | what every build keeps, records, repairs and leaves alone, and the exceptions reached |
| `Lru.dfy`, `Caches.dfy` | recency lists with two limits, and the two caches |
| `Bridge.dfy`, `BridgeSafety.dfy`, `BridgeManager.dfy` | the request files, their invariants over crashes, and the manager |
| `Chunking.dfy`, `Pages.dfy`, `Windows.dfy`, `NormalizeText.dfy` | chunks, estimated pages, token windows, text clean-up |
| `Parents.dfy`, `ParentContext.dfy` | excerpts around a hit, and the bounded context of a retrieval |
| `Pipeline.dfy`, `ProviderLoop.dfy`, `Session.dfy` | the merging of hits, the provider loop over the request files, and a whole run of requests on one vault |

Some results are conditions the code does not state. An indexed document can lose its points, or its
points and its rows, in one place only: pruning makes three separate writes, and a build that stops
after the first or the second leaves the record as it was. A build keeps every indexed document
complete exactly when it does not stop there in an indexed one (`IndexRecovery.BuildKeepsInvIff`). A
faultless rebuild repairs such a document unless it is found again unchanged and the totals are
equal (`IndexRerun.CleanRunRecovers`), which builds from empty stores can bring about in either way
(`IndexMasked.MaskedLoss`, `IndexMasked.EmptiedLoss`). After such a rebuild the totals are equal
exactly when no document has rows without points (`IndexRerun.TotalsAgreeIff`). So a second one
restores lost points, and the comment at `src/secure_rag/ingestion/indexer.py:357-358` is right that
a later build detects the count mismatch; only, that build need not be the next one. A document
emptied of rows and points leaves no mismatch of its own: met unchanged, with equal totals and no
torn one beside it, it is skipped by every later build of the same files (`IndexRerun.SameRunTwice`,
`IndexRerun.NothingMoreRepaired`). An occurrence of a known value is marked or overlaps a marked
range unless an earlier occurrence of the same value reaches over it (`Propagation.AliasCovered`,
`Context.KnownCovered`); a search goes on behind what it found, so when that one loses its place the
later one stays (`Shadows.AliasLeft`, `Shadows.KnownLeft`), for `validate_outbound` to see. A new
value marked on a reloaded vault may be given an issued marker (`Vaults.MarkingAfterReload`). A
response can be staged while the payload file is not the recorded one
(`BridgeSafety.PayloadAgreesIff`, `BridgeSafety.StagedOverOtherPayload`). An evidence list is
extended by the next one exactly when it repeats no chunk (`Pipeline.EvidenceGrowsIff`); a single
Qdrant query returns each point once and a chunk id is its point id, so a first search that repeats
a chunk is not shown to occur.

## Model

| member | source | states |
|---|---|---|
| Markers.TokensDisjoint | src/secure_rag/sanitization/core.py:14-15 | two matches of either marker expression anywhere in a text coincide or are disjoint, so leftmost-first scanning loses none |
| Markers.MarkerLikeIff | src/secure_rag/sanitization/core.py:15-15 | a range is matched as marker-like exactly when it is two opening brackets, 1 to 80 characters other than brackets and line ends, and two closing ones |
| Markers.MarkerIff | src/secure_rag/sanitization/core.py:14-14 | a range is matched as a marker exactly when its body is a label that begins with A-Z, an underscore and at least four decimal digits |
| Markers.MatchInGap | src/secure_rag/sanitization/core.py:14-15 | no match that starts in a gap is created or changed by a following text that begins with two opening brackets |
| Markers.MarkerTextInjective | src/secure_rag/sanitization/core.py:81-83 | different label and number pairs print different markers, whatever digits and underscores the labels hold |
| Markers.MarkerTextMatches | src/secure_rag/sanitization/core.py:64-83 | a printed marker is matched as a whole exactly when its safe label begins with A-Z |
| Markers.LabelOfMarker | src/secure_rag/llm/bridge.py:428-431 | the label read back from a marker is the label it was printed from |
| Spans.MergeSpans | src/secure_rag/sanitization/core.py:38-57 | the loop over candidates and accepted spans computes the merge function |
| Spans.MergeProperties | src/secure_rag/sanitization/core.py:38-57 | the result is ordered, pairwise disjoint, drawn from the input, and every rejected span overlaps an accepted one of no lower rank |
| Spans.MergeByFields | src/secure_rag/sanitization/core.py:38-57 | accepted extents do not overlap, and every span offered is accepted or shares a character with an accepted one of higher priority, or of equal priority and higher score, or of equal both and longer, or as long and no later |
| Spans.MergeIdempotent | src/secure_rag/sanitization/core.py:38-57 | merging a merged list changes nothing |
| Spans.MergeOrderIndependent | src/secure_rag/sanitization/core.py:38-57 | accepted ranks and extents do not depend on the order or multiplicity in which spans were supplied, even with ties |
| Spans.UnbeatableKept | src/secure_rag/sanitization/core.py:50-56 | an extent that outranks everything overlapping it is always accepted |
| Russian.ShippedEndingsAreGood | src/secure_rag/sanitization/normalization.py:37-116 | no ending of the shipped table looks like a nominative ending of that table |
| Russian.LettersLawful | src/secure_rag/sanitization/normalization.py:12-116 | the Latin and Russian letters with the shipped tables meet all the laws the surname results assume |
| Surnames.NormalizeIdempotent | src/secure_rag/sanitization/normalization.py:119-136 | normalizing a surname twice is normalizing it once, for every string over letters whose case maps are letter by letter |
| Surnames.NormalizedIs | src/secure_rag/sanitization/normalization.py:127-136 | the first listed ending that closes the value with more than one letter before it gives way to its nominative one |
| Surnames.NormalizedCase | src/secure_rag/sanitization/normalization.py:119-136 | a value all in upper case stays so, and of any other only the case of the first letter is kept |
| Surnames.NothingReplaced | src/secure_rag/sanitization/normalization.py:127-136 | a value that no listed ending closes is only stripped |
| Surnames.WordLenIs | src/secure_rag/sanitization/normalization.py:7-7 | a word is as many letters as there are, and when one hyphen, apostrophe or right quotation mark and a letter follow, those and the letters after |
| Surnames.CanonicalIs | src/secure_rag/sanitization/normalization.py:139-162 | the canonical value is the normal form of the first word of at least four letters with a surname ending, failing that of the first word longer than a letter, failing that of the first word; without words it is the stripped value |
| Surnames.InflectedCanonical | src/secure_rag/sanitization/normalization.py:127-162 | a stem with an inflected ending and the stem with its nominative ending have one canonical value, up to letter case |
| Surnames.NormalizedWord | src/secure_rag/sanitization/normalization.py:127-162 | a normalized name word is again one word and its own normal form |
| Surnames.CanonicalFixed | src/secure_rag/sanitization/normalization.py:147-162 | the canonical person value is its own canonical value |
| Surnames.IdentityFixed | src/secure_rag/sanitization/normalization.py:165-192 | surface form, canonical form and display form of a value have one identity |
| Vaults.MarkerState.MarkLiteral | src/secure_rag/sanitization/core.py:69-87 | the dictionary updates are exactly the value-level marking |
| Vaults.FreshMarker | src/secure_rag/sanitization/core.py:81-87 | a number not counted yet gives a marker never issued |
| Vaults.MarkKeepsNamespace | src/secure_rag/sanitization/core.py:69-87 | marking keeps a valid vault valid, changes nothing issued before, returns the marker of the identity, stores the value itself outside PER, and prints the safe label |
| Vaults.SameMarkerIffSameIdentity | src/secure_rag/sanitization/core.py:72-80 | two marks of one request share a marker exactly when label and identity agree, however far apart they are |
| Vaults.SharedMarkerIff | src/secure_rag/sanitization/core.py:69-87 | the same told by label and value: two marks share a marker exactly when their safe labels are equal and so are their values, or for persons the normal forms of their chosen words but for letter case |
| Vaults.InflectedSharesMarker | src/secure_rag/sanitization/normalization.py:127-192 | an inflected surname gets the marker of its nominative, however many marks lie between |
| Vaults.MarkLearns | src/secure_rag/sanitization/core.py:76-86 | marking adds value, canonical and display form to the aliases of the marker, and stores the display form with a new marker only |
| Vaults.SafeLabelKeepsLetters | src/secure_rag/sanitization/core.py:65-67 | a safe label keeps the letters and digits of the upper-cased label in order, and is ENTITY when there are none |
| Vaults.SafeLabelFixed | src/secure_rag/sanitization/core.py:65-67 | a label that is safe already is only upper-cased |
| Vaults.CollapseRun | src/secure_rag/sanitization/core.py:65-67 | a run of other characters between safe ones becomes one underscore |
| Vaults.PersonFormsShareMarker | src/secure_rag/sanitization/normalization.py:147-192 | a PER surface form, its canonical form and its display form get one marker |
| Vaults.ReloadRoundTrip | src/secure_rag/llm/bridge.py:424-432 | a written and reloaded marker state is the same state without its counters |
| Vaults.MarkingAfterReload | src/secure_rag/llm/bridge.py:424-432 | on a reloaded state an unseen value keeps the namespace injective exactly when its label had issued no marker |
| Weaving.TokensOfWeave | src/secure_rag/sanitization/core.py:14-15 | the marker matches of a text with markers put in are the inserted markers and the matches inside the gaps, in order |
| Weaving.SubstituteWeave | src/secure_rag/sanitization/core.py:228-231 | restoring such a text restores the gaps and sets each marker to its value |
| Weaving.RestoreFills | src/secure_rag/sanitization/core.py:228-231 | when every marker-like token was replaced, restoring changes the replaced ranges and nothing else |
| Weaving.WovenTokensKnown | src/secure_rag/sanitization/core.py:221-227 | every marker-like token of such a text is an inserted marker, so none is unknown |
| Gateway.RestoreRefusedIff | src/secure_rag/sanitization/core.py:219-231 | restoring is refused exactly when unknown markers are refused and some marker-like token of the text has no value; otherwise it substitutes |
| Gateway.SanitizeWithSpans | src/secure_rag/sanitization/core.py:143-161 | the method's text, vault and count are those of the sanitize function over the merged spans |
| Gateway.ReplaceSpans | src/secure_rag/sanitization/core.py:151-160 | the loop with pieces and cursor computes the same text and vault |
| Gateway.SanitizeIsWeave | src/secure_rag/sanitization/core.py:151-160 | the sanitized text is the input with each replaced range set to its marker and nothing else touched |
| Gateway.MarkSpansReplace | src/secure_rag/sanitization/core.py:153-159 | every replacement stands for one accepted span and every accepted span inside the text is replaced |
| Gateway.MarkSpansKeepsNamespace | src/secure_rag/sanitization/core.py:153-159 | marking a whole field keeps the vault valid and everything issued unchanged |
| RoundTrip.SanitizeRestores | src/secure_rag/sanitization/core.py:143-161 | restoring a sanitized field, under its vault or any later one, meets no unknown marker and yields the text with each accepted span set to its stored value |
| RoundTrip.SanitizeRestoresOriginal | src/secure_rag/sanitization/core.py:219-231 | without PER spans the original text comes back, character for character |
| RoundTrip.FieldsFilled | src/secure_rag/sanitization/core.py:143-161 | every field marked on one shared vault is restored, by the final vault, to its own text with exactly its accepted spans set to their stored values |
| RoundTrip.FieldsRecover | src/secure_rag/sanitization/core.py:143-161 | every field marked on one shared vault is recovered by the vault the request ends with |
| RoundTrip.GatewayRoundTrip | src/secure_rag/sanitization/core.py:69-161 | the same for the gateway's own marking, from an empty vault |
| Propagation.PropagateStateMarkers | src/secure_rag/sanitization/core.py:166-202 | the method computes the propagation function |
| Propagation.OccursAtIff | src/secure_rag/sanitization/core.py:19-28 | what an occurrence is: the same characters but for case, and no word character beside an end of the value that is a letter |
| Propagation.KnownRangesAre | src/secure_rag/sanitization/core.py:19-35 | what the scan for a value finds: occurrences of the stripped value, in order and disjoint, so that every occurrence at any position begins inside one of them; nothing for a value of fewer than three characters |
| Propagation.OutboundCleanIff | src/secure_rag/sanitization/core.py:204-217 | a text passes exactly when no alias of at least three characters occurs anywhere among its characters outside marker tokens |
| Propagation.BareIsOutside | src/secure_rag/sanitization/core.py:208-208 | the text without its marker matches is its characters outside marker tokens, in order |
| Propagation.CollectCandidates | src/secure_rag/sanitization/core.py:170-183 | the nested loops list exactly the alias occurrences that touch no marker |
| Propagation.KeepDisjoint | src/secure_rag/sanitization/core.py:184-193 | the loop with the occupied end computes the greedy choice |
| Propagation.Rewrite | src/secure_rag/sanitization/core.py:194-202 | the loop with pieces and cursor sets exactly the accepted ranges to their markers |
| Propagation.AcceptedInOrder | src/secure_rag/sanitization/core.py:184-193 | accepted ranges are candidates, in order, disjoint and inside the text |
| Propagation.AcceptedIsGreedy | src/secure_rag/sanitization/core.py:184-193 | they are the unique greedy choice among all candidates |
| Propagation.AcceptedOrderIndependent | src/secure_rag/sanitization/core.py:171-193 | they do not depend on the order in which markers and alias sets are visited |
| Propagation.PropagateRestores | src/secure_rag/sanitization/core.py:166-202 | existing marker tokens all stay, in order, and restoring the output is restoring the input with the accepted ranges set to their markers' values |
| Propagation.PropagateComplete | src/secure_rag/sanitization/core.py:184-193 | a candidate left in place overlaps a replaced one |
| Propagation.RejectedByFields | src/secure_rag/sanitization/core.py:184-193 | and that one begins earlier, or with it and is longer, or has its extent and a marker that is less |
| Propagation.AliasCovered | src/secure_rag/sanitization/core.py:166-202 | an occurrence of an alias outside the markers, at any position, shares a character with a replaced range, unless an earlier occurrence of the same alias reaches over it that touches a marker or loses to a replaced range |
| Propagation.LoneAliasCoveredIff | src/secure_rag/sanitization/core.py:166-202 | for one alias alone the exception is exact: a stretch is touched by a replaced range exactly when some range that the scan took overlaps it and touches no marker |
| Propagation.UnshadowedCovered | src/secure_rag/sanitization/core.py:166-202 | without an earlier overlapping occurrence of the same alias it always does |
| Shadows.AliasLeft | src/secure_rag/sanitization/core.py:177-193 | a text and two aliases where such an earlier occurrence leaves a later one in place |
| Propagation.PropagateKeepsKnown | src/secure_rag/sanitization/core.py:166-202 | a text whose marker-like tokens are all known still has only known ones |
| Context.OccurrenceOfToken | src/secure_rag/sanitization/core.py:115-141 | wherever a marker-like value is found, in any letter case, there is a marker-like token |
| Context.PropagatedTokens | src/secure_rag/sanitization/core.py:115-141 | known-value spans of the top priority are marker-like tokens of the text |
| Context.CompletedRestorable | src/secure_rag/orchestration/context.py:132-143 | spans completed by the known values of all fields still satisfy what the round trip needs |
| Context.KnownCovered | src/secure_rag/sanitization/core.py:115-141 | an occurrence of a known value in a field shares a character with a span of the completed field, unless an earlier occurrence of the same value reaches over it |
| Context.DetectedCovered | src/secure_rag/orchestration/context.py:118-143 | so does every occurrence, in any field, of a value detected in any field |
| Context.OwnSpanned | src/secure_rag/orchestration/context.py:139-143 | every detected span shares a character with a span of the completed field |
| Shadows.KnownLeft | src/secure_rag/sanitization/core.py:126-140 | two known values and a text where the exception occurs |
| Context.ListAliases | src/secure_rag/sanitization/core.py:172-173 | the nested dictionary loops visit every alias of every marker |
| Context.MarkFields | src/secure_rag/orchestration/context.py:144-168 | the fields are marked one after another on the shared state |
| Context.ReapplyAliases | src/secure_rag/orchestration/context.py:172-180 | every field is propagated with the aliases of the final state |
| Context.AssembleRequest | src/secure_rag/orchestration/context.py:127-182 | the whole pass gives the outgoing texts and the vault of the assembly function |
| Context.IterationKeepsNamespace | src/secure_rag/orchestration/context.py:85-182 | one iteration keeps the vault valid, its markers matchable and everything issued before unchanged |
| Context.RequestRestores | src/secure_rag/orchestration/context.py:85-182 | every marked field restores, under this or any later vault, to the raw question or hit with its accepted spans set to stored values, and every outgoing field to that with the alias ranges set as well |
| Context.DetectionObeysRule | src/secure_rag/sanitization/regex.py:81-86 | merged spans that contain those of the RAW_MARKER rule, in any order and with any others of lower priority, keep a span of that priority at every marker-like token and nowhere else |
| IndexBuild.ManifestStore.UpsertDocument | src/secure_rag/ingestion/manifest.py:112-147 | the table update is one all-or-nothing step |
| IndexBuild.ManifestStore.ReplaceChunks | src/secure_rag/ingestion/manifest.py:206-230 | the rows of one document are exchanged in one all-or-nothing step |
| IndexBuild.QdrantStore.WriteWithRetry | src/secure_rag/retrieval/vector_store.py:94-107 | the retry loop is the value-level retry, for every script of faults |
| IndexBuild.QdrantStore.DeleteDocument | src/secure_rag/retrieval/vector_store.py:167-187 | removes the points of one document, with retries |
| IndexBuild.QdrantStore.Upsert | src/secure_rag/retrieval/vector_store.py:189-233 | writes the points batch by batch and stops at the first batch that fails |
| IndexBuild.Indexer.HandleFailure | src/secure_rag/ingestion/indexer.py:274-303 | best-effort cleanup, then the failed status |
| IndexBuild.Indexer.ReplaceDocument | src/secure_rag/ingestion/indexer.py:259-273 | delete, upsert, rows and final record, in that order, stopping where a write fails |
| IndexBuild.Indexer.ProcessFile | src/secure_rag/ingestion/indexer.py:155-303 | one file, on the stores, as the protocol function says |
| IndexBuild.Indexer.ProcessFiles | src/secure_rag/ingestion/indexer.py:150-303 | the file loop, with counters equal to the numbers of files indexed, skipped and failed |
| IndexBuild.Indexer.PruneOne | src/secure_rag/ingestion/indexer.py:365-375 | points, rows, then the record |
| IndexBuild.Indexer.RemoveMissing | src/secure_rag/ingestion/indexer.py:361-375 | prunes the records that are neither seen nor deleted |
| IndexBuild.Indexer.Run | src/secure_rag/ingestion/indexer.py:99-317 | preflight counts, file loop and pruning of a whole build |
| IndexSafety.WriteKeepsInv | src/secure_rag/retrieval/vector_store.py:94-107 | a write to a document in progress keeps the invariant under every fault and retry |
| IndexSafety.WriteTakesEffect | src/secure_rag/retrieval/vector_store.py:94-107 | a retried write that ends well has the effect of one application |
| IndexRecovery.RetriedWrite | src/secure_rag/retrieval/vector_store.py:94-107 | for every script of faults, when a retried write takes effect, when it ends well, and which faults it leaves: it is tried again only after a transient error and while attempts are left |
| IndexSafety.UpsertTakesEffect | src/secure_rag/retrieval/vector_store.py:189-233 | batches that all succeed add exactly the listed points |
| IndexSafety.FileKeepsInv | src/secure_rag/ingestion/indexer.py:155-303 | after one file, whatever failed, an indexed document has its revision indexed and exactly the chunks of that revision and signature as rows and as points, a deleted one has neither, and every point and row belongs to a known document |
| IndexSafety.LoopKeepsInv | src/secure_rag/ingestion/indexer.py:150-303 | the same for the file loop, with death after any step |
| IndexFailures.FileRecords | src/secure_rag/ingestion/indexer.py:155-303 | a file given up is recorded as failed: given up before its record was written it keeps every other field, and stays unknown if it was, later it has its new record; an indexed file has its new record, a skipped one its old record with its paths |
| IndexFailures.LoopRecords | src/secure_rag/ingestion/indexer.py:150-303 | when the loop ends every file of the run that has a record is indexed or failed, and no other record has changed |
| IndexFailures.PruneRecords | src/secure_rag/ingestion/indexer.py:365-375 | a completed pruning leaves no point, no row and the record as deleted, without indexed revision and signature, and touches nothing else |
| IndexFailures.CleanupClears | src/secure_rag/ingestion/indexer.py:274-303 | a file with chunks given up after its record was written has no points whenever some attempt of its cleanup took effect |
| IndexRecovery.PruneKeepsInvIff | src/secure_rag/ingestion/indexer.py:365-375 | pruning one record breaks this exactly when it is indexed and the faults stop its pruning after its points and before its record |
| IndexRecovery.RemoveMissingExempts | src/secure_rag/ingestion/indexer.py:361-375 | pruning everything unseen damages at most the one document it is stopped in |
| IndexRecovery.RemoveMissingKeepsInvIff | src/secure_rag/ingestion/indexer.py:361-375 | it keeps every indexed document complete exactly when it is not stopped so |
| IndexRecovery.BuildExempts | src/secure_rag/ingestion/indexer.py:144-330 | a build damages at most the one document its pruning is stopped in, and none when it does not prune, completes, or stops in its file loop |
| IndexRecovery.BuildKeepsInvIff | src/secure_rag/ingestion/indexer.py:144-330 | a build keeps every indexed document complete exactly when its pruning is not stopped half-way in an indexed one |
| IndexRecovery.HistoryKeepsInv | src/secure_rag/ingestion/indexer.py:144-330 | after any history of builds every indexed document holds exactly its chunks, except those in which a pruning was stopped, which may have lost all points or all points and rows: at most one per build cut short while pruning |
| IndexRecovery.UninterruptedHistory | src/secure_rag/ingestion/indexer.py:144-330 | without a build cut short while pruning every indexed document holds exactly its chunks, wherever builds died in their file loops |
| IndexRecovery.StraysOnly | src/secure_rag/ingestion/manifest.py:282-294 | the loop's own failures leave stray points only: every counted row has its point |
| IndexRecovery.CountTestExact | src/secure_rag/ingestion/indexer.py:99-104 | with differences in one direction only, equal totals mean agreement point for point |
| Stores.PointCounts | src/secure_rag/retrieval/vector_store.py:293-312 | one more point counts exactly when it carries the signature |
| Stores.RowCounts | src/secure_rag/ingestion/manifest.py:282-294 | one more chunk row counts exactly when its document is indexed as it is under the signature |
| IndexRecovery.CountTestAfterLoop | src/secure_rag/retrieval/vector_store.py:293-312 | hence after any run of the loop the count test is exact |
| IndexRerun.CleanFile | src/secure_rag/ingestion/indexer.py:155-273 | a file processed without faults ends indexed as it is with its chunks in both stores, unless it looks indexed, does not hold them and is skipped; then it stays torn or emptied as it was |
| IndexRerun.HiddenKinds | src/secure_rag/ingestion/indexer.py:164-173 | in a reachable state a file that the skip test takes for an indexed one without the stores holding its chunks is torn or emptied |
| IndexRerun.CleanRunRecovers | src/secure_rag/ingestion/indexer.py:150-316 | a pruning run without faults makes every discovered file indexed as it is with its chunks in both stores and clears the rest, except exactly when totals are equal and a torn or emptied file is met again unchanged |
| IndexRerun.LoopFailuresRecover | src/secure_rag/ingestion/indexer.py:150-316 | without interrupted prunings it always does so |
| IndexRerun.RecoveredStoresAgree | src/secure_rag/ingestion/indexer.py:99-104 | then points and rows are the same set and the count test passes |
| IndexRerun.RerunIsIdle | src/secure_rag/ingestion/indexer.py:162-188 | a rerun on unchanged files skips all of them and attempts no write, whatever faults wait |
| IndexRerun.TotalsAgreeIff | src/secure_rag/ingestion/indexer.py:99-104 | when every record is current or deleted, the totals agree exactly when no indexed document has its rows without points |
| IndexRerun.TwoCleanRunsRecover | src/secure_rag/ingestion/indexer.py:150-316 | of two faultless pruning runs in a row, with any files and signatures, the second recovers exactly when the first left a document torn or left no file of the second emptied |
| IndexRerun.SameRunTwice | src/secure_rag/ingestion/indexer.py:150-316 | the same files indexed twice without faults end recovered, except exactly when the totals were equal, a file was emptied and none was torn |
| IndexRerun.NothingMoreRepaired | src/secure_rag/ingestion/indexer.py:150-316 | when no file was torn, no later build of the same files changes what the first run left, whatever faults wait |
| IndexMasked.MaskedLoss | src/secure_rag/ingestion/indexer.py:99-104 | two builds reach, from empty stores, a state whose lost and stray points cancel; one faultless run leaves the loss, a second repairs it |
| IndexMasked.EmptiedLoss | src/secure_rag/ingestion/indexer.py:365-375 | two builds reach, from empty stores, a record that says indexed with nothing in either store; every later build of the unchanged file leaves it so |
| Lru.LimitsHold | src/secure_rag/ingestion/cache.py:261-287 | after every history both limits hold and no key is held twice |
| Lru.CachedIsSuffix | src/secure_rag/ingestion/cache.py:279-286 | the cache is always the most recent part of the list that never evicts |
| Lru.UnboundedIsLatest | src/secure_rag/ingestion/cache.py:247-302 | that list holds the latest accepted store of every key |
| Lru.HitIsLatestStore | src/secure_rag/ingestion/cache.py:247-259 | a hit is the latest accepted store of its key |
| Lru.StoreKeepsIff | src/secure_rag/ingestion/cache.py:279-286 | one store keeps another cached entry exactly when it, what was used after it and the new entry fit both limits |
| Lru.CachedIffAlwaysFitted | src/secure_rag/ingestion/cache.py:247-302 | an entry is cached exactly when, ever since its store, it and the distinct entries used after it have fitted both limits and it was neither cleared nor displaced |
| Lru.OrderedByLastUse | src/secure_rag/ingestion/cache.py:247-287 | the cache is in strictly increasing order of the last operation that stored the key or was answered for it |
| Lru.AnsweredMovesToEnd | src/secure_rag/ingestion/cache.py:256-259 | an answered load puts its entry last and leaves the others in their order |
| Lru.MissChangesNothing | src/secure_rag/ingestion/cache.py:247-255 | a load that is not answered changes nothing |
| Lru.AnsweredStaysIff | src/secure_rag/ingestion/cache.py:256-286 | what was just answered survives the store of another key exactly when both fit together |
| Caches.ExtractedTextCache.Create | src/secure_rag/ingestion/cache.py:222-241 | a cache is made exactly for the limits the constructor accepts |
| Caches.ExtractedTextCache.Load | src/secure_rag/ingestion/cache.py:247-259 | a hit moves its entry to the recent end, a miss changes nothing |
| Caches.ExtractedTextCache.Store | src/secure_rag/ingestion/cache.py:261-287 | refuses, skips or keeps as the limits say, with the running total equal to the sum of sizes |
| Caches.ExtractedTextCache.Clear | src/secure_rag/ingestion/cache.py:299-302 | leaves nothing cached and the total zero |
| Caches.SpanCache.Load | src/secure_rag/orchestration/context.py:47-53 | a hit moves its entry to the recent end, a miss changes nothing |
| Caches.SpanCache.Store | src/secure_rag/orchestration/context.py:55-71 | an oversized list leaves the cache as it was, any other replaces its key and evicts the oldest |
| BridgeManager.Manager.Create | src/secure_rag/llm/bridge.py:50-167 | refuses or makes its nine writes in order, stopping where the process dies |
| BridgeManager.Manager.UpdatePrepared | src/secure_rag/llm/bridge.py:280-354 | refuses or makes its four writes in order, stopping where the process dies |
| BridgeManager.Manager.StageResponse | src/secure_rag/llm/bridge.py:434-455 | refuses or writes the response, then the manifest |
| BridgeManager.Manager.RestoreStaged | src/secure_rag/llm/bridge.py:457-482 | refuses or writes the restored answer, then the manifest |
| BridgeManager.Manager.ValidateDynamicPayload | src/secure_rag/llm/bridge.py:169-182 | accepts exactly the requests all of whose fields are clean |
| BridgeSafety.CleanIff | src/secure_rag/sanitization/core.py:204-217 | a field is clean exactly when no value that one of the markers may stand for, of at least three characters, occurs among its characters outside marker tokens |
| BridgeSafety.RunAgrees | src/secure_rag/llm/bridge.py:50-482 | after every run with every cut-off the manifest records the last completed publication and the last accepted response, and each file the last write that reached it |
| BridgeSafety.LoadsIff | src/secure_rag/llm/bridge.py:386-432 | the marker state loads exactly when the markers that last reached the vault are the last published ones, and it is then the published state |
| BridgeSafety.RestoredIsAccepted | src/secure_rag/llm/bridge.py:457-482 | restoring changes nothing or writes the restoration of the last accepted response under the published mapping |
| BridgeSafety.RestoresIff | src/secure_rag/llm/bridge.py:457-474 | it is not refused exactly when the accepted response is on disk and not blank, the state loads, and no marker-like token of the response lies outside the published mapping or such tokens are tolerated |
| BridgeSafety.StagesIff | src/secure_rag/llm/bridge.py:434-440 | staging is not refused exactly when the state loads and the text is short enough and clean under the published markers |
| BridgeSafety.UpdatesIff | src/secure_rag/llm/bridge.py:294-299 | an update is not refused exactly on a published request of an automatic provider, before a response is accepted, with clean fields |
| BridgeSafety.StagedForever | src/secure_rag/llm/bridge.py:296-297 | once a response is accepted the payload file, the vault and the published mapping never change again |
| BridgeSafety.AnswerIsRestoration | src/secure_rag/llm/bridge.py:469-475 | the answer file always holds some accepted response with its markers substituted under the mapping still published, and that response has no marker-like token outside the mapping when such tokens are refused |
| BridgeSafety.CompletionLoads | src/secure_rag/llm/bridge.py:348-354 | a completed create or update leaves payload, vault and manifest in agreement |
| BridgeSafety.CompletionRoundTrip | src/secure_rag/llm/bridge.py:96-118 | what is then loaded is the marker state that was passed in, without its counters |
| BridgeSafety.InterruptedUpdateRecovers | src/secure_rag/llm/bridge.py:294-354 | an update cut off anywhere is repaired by making any clean update again |
| BridgeSafety.PayloadAgreesIff | src/secure_rag/llm/bridge.py:348-354 | the payload file is the recorded one exactly when the last payload written is the published one |
| BridgeSafety.StagedOverOtherPayload | src/secure_rag/llm/bridge.py:434-455 | for any two requests without markers, a run in which a response is accepted over a payload that is not the recorded one |
| Chunking.ChunkText | src/secure_rag/ingestion/chunking.py:44-100 | refuses exactly the invalid sizes and otherwise returns the chunks of the chunk function |
| Chunking.CutRule | src/secure_rag/ingestion/chunking.py:33-41 | the search for an end stops after the last occurrence in its window of the first separator that occurs there, or at the target when none does |
| Chunking.ChunkCut | src/secure_rag/ingestion/chunking.py:67-72 | a chunk ends where that search stops, less the white space before it, with the window of its settings |
| Chunking.CutNotEarly | src/secure_rag/ingestion/chunking.py:36-41 | a separator is used only beyond the minimum and beyond the share of the target |
| Chunking.ChunksWellCut | src/secure_rag/ingestion/chunking.py:62-93 | every chunk is its slice, no longer than the size, visible at both ends, with the source of its span |
| Chunking.ChunksFollow | src/secure_rag/ingestion/chunking.py:95-99 | the next chunk begins at the first visible character from one overlap before the end, or from one character after the start when that is later |
| Chunking.FirstChunk | src/secure_rag/ingestion/chunking.py:59-66 | the chunks from a position on begin at its first visible character |
| Chunking.ChunksCover | src/secure_rag/ingestion/chunking.py:62-99 | every visible character lies in some chunk |
| Chunking.ChunkedIffVisible | src/secure_rag/ingestion/chunking.py:56-66 | there are chunks exactly when there is a visible character |
| Chunking.OrdinalsArePositions | src/secure_rag/ingestion/chunking.py:73-99 | ordinals are positions, so no two chunks share an identity |
| Pages.PagesTile | src/secure_rag/ingestion/extractors.py:309-326 | estimated pages tile the text with non-empty intervals |
| Pages.PageNumbers | src/secure_rag/ingestion/extractors.py:309-326 | page numbers begin at 1, increase strictly and never pass the page count |
| Pages.PagesEven | src/secure_rag/ingestion/extractors.py:317-326 | page i of m begins and ends at its share of the text, rounded down, and its number is one more than that share of the page count |
| Pages.SpanPages | src/secure_rag/ingestion/chunking.py:10-30 | over estimated pages a span's source names exactly the pages of its first and last characters |
| Pages.TiledSource | src/secure_rag/ingestion/chunking.py:10-30 | the same for any tiling of one kind with distinct values |
| Pages.SourceUnknownIff | src/secure_rag/ingestion/chunking.py:15-25 | a span has no source exactly when it touches no interval or intervals of two kinds |
| Windows.Overlap | src/secure_rag/sanitization/ner.py:96-97 | the configured overlap is positive and smaller than the window |
| Windows.WidthIs | src/secure_rag/sanitization/ner.py:94-96 | a window and two special tokens fill the length of the model, up to 512, and a window never has fewer than 32 tokens |
| Windows.CharacterWindows | src/secure_rag/sanitization/ner.py:191-203 | the loop computes the window function |
| Windows.RunsHeldIff | src/secure_rag/sanitization/ner.py:193-203 | beyond one window, all runs of a length lie wholly inside single windows exactly when the length is at most the overlap and one |
| Windows.ConfiguredRuns | src/secure_rag/sanitization/ner.py:96-97 | with the configured sizes that length is the smaller of 64 and a quarter of the window, and one |
| Windows.EntityInOneWindow | src/secure_rag/sanitization/ner.py:193-203 | every run of at most overlap and one tokens, so every token, lies inside one character window |
| Windows.WindowsInRange | src/secure_rag/sanitization/ner.py:195-201 | windows stay in the text, are no longer than the width, and the last one reaches the end |
| NormalizeText.NormalizeText | src/secure_rag/ingestion/extractors.py:145-160 | the loop with the blank flag computes the normalization function |
| NormalizeText.BreaksConcat | src/secure_rag/ingestion/extractors.py:150-150 | line ends are made uniform piece by piece wherever a text is not cut inside CR LF |
| NormalizeText.BreaksOfOne | src/secure_rag/ingestion/extractors.py:150-150 | CR LF and CR become one line feed, everything else stays |
| NormalizeText.SqueezeRun | src/secure_rag/ingestion/extractors.py:152-159 | a run of blank lines between others becomes its first line |
| NormalizeText.SqueezeKeepsText | src/secure_rag/ingestion/extractors.py:152-159 | lines that are not blank all stay |
| NormalizeText.NormalizeIsNormal | src/secure_rag/ingestion/extractors.py:145-160 | the result has no surrogate, NUL or carriage return, no line with trailing white space, no two neighbouring blank lines and no outer white space |
| NormalizeText.FixedIffNormal | src/secure_rag/ingestion/extractors.py:145-160 | such texts are exactly those normalization leaves alone, and normalizing twice is normalizing once |
| NormalizeText.NormalizeKeepsInk | src/secure_rag/ingestion/extractors.py:149-160 | the visible characters stay, in order, apart from dropped NULs and replaced surrogates |
| NormalizeText.LegalLength | src/secure_rag/ingestion/extractors.py:146-150 | only NULs shorten the text; surrogates are replaced in place |
| Parents.WindowExact | src/secure_rag/orchestration/parents.py:277-302 | a window is a slice inside the bounds of exactly the smaller of budget and bounds |
| Parents.WindowFocus | src/secure_rag/orchestration/parents.py:292-302 | a focus inside the bounds is wholly in the window exactly when it fits, and spare room is shared evenly until a side ends |
| Parents.TableWithinBudget | src/secure_rag/orchestration/parents.py:248-275 | a table excerpt never exceeds its budget |
| Parents.TableBeginsWithHeader | src/secure_rag/orchestration/parents.py:258-275 | it begins with the header |
| Parents.TableContainsFocus | src/secure_rag/orchestration/parents.py:258-275 | it contains the focus whenever header, separator and focus fit together |
| Parents.RelevantLocations | src/secure_rag/orchestration/parents.py:231-246 | the nested loops compute the relevant locations |
| Parents.RelevantIs | src/secure_rag/orchestration/parents.py:231-246 | no extent twice, each touches a hit, and every touched extent is there |
| Parents.SelectSections | src/secure_rag/orchestration/parents.py:194-202 | the loop with the used budget computes the selection |
| Parents.SelectMaximal | src/secure_rag/orchestration/parents.py:196-202 | no section left out would have fitted beside the selected ones |
| Parents.SelectSnoc | src/secure_rag/orchestration/parents.py:194-202 | a section is taken exactly when it fits beside those taken before it |
| Parents.JoinHolds | src/secure_rag/orchestration/parents.py:203-208 | the joined text holds every section taken at its place, in order |
| Parents.JoinSeparates | src/secure_rag/orchestration/parents.py:203-208 | and one separator between neighbours |
| Parents.FileTypeIs | src/secure_rag/orchestration/parents.py:213-213 | the file type is the name behind the leading dots with A-Z in small letters |
| Parents.LogicalParentOf | src/secure_rag/orchestration/parents.py:184-229 | the method computes the logical parent |
| Parents.ParentHoldsHits | src/secure_rag/orchestration/parents.py:210-229 | without relevant sections the parent is one slice that holds all hits whenever they fit together |
| Parents.TableParentHeader | src/secure_rag/orchestration/parents.py:209-221 | without a section that fits, the parent of a table begins with the header of the first relevant section, or of the whole text |
| Parents.TableParentHoldsBest | src/secure_rag/orchestration/parents.py:213-221 | and it holds the best hit when header, separator and hit fit together |
| Parents.SliceParent | src/secure_rag/orchestration/parents.py:209-229 | any other parent without a section is one slice of that part, as long as budget and part allow, and holds all hits that lie there and fit |
| Parents.ParentCoversSections | src/secure_rag/orchestration/parents.py:192-208 | sections are held exactly when one fits, all are relevant, and the reported range covers them |
| Parents.ParentWithinBudget | src/secure_rag/orchestration/parents.py:184-229 | a logical parent never exceeds its budget |
| ParentContext.Build | src/secure_rag/orchestration/parents.py:36-121 | the loop with the remaining budget computes the context function |
| ParentContext.GroupsPartition | src/secure_rag/orchestration/parents.py:45-47 | grouping keeps every hit once and gives each document one group |
| ParentContext.GroupsInOrder | src/secure_rag/orchestration/parents.py:45-47 | documents come in the order of their first hits, the hits of each in their own order |
| ParentContext.ContextBounds | src/secure_rag/orchestration/parents.py:49-114 | the context stays within its total and holds at most the allowed number of whole documents; each entry is a non-empty beginning of a hit whose document cannot be read, a complete document within its limit, or the logical parent of its group for a budget within its limit |
| ParentContext.ContextParts | src/secure_rag/orchestration/parents.py:36-121 | switched off, the context is the hits; otherwise, group by group and for the room and the whole documents that those before leave: the hits of an unreadable document as far as there is room, a complete document when it and its number fit, else the logical parent; no group is left out while there is room |
| ParentContext.FallbackSpells | src/secure_rag/orchestration/parents.py:57-66 | the kept hits of an unreadable document spell the beginning of all its hits together |
| Pipeline.MergeHits | src/secure_rag/orchestration/pipeline.py:357-369 | the loop with the seen set computes the merge |
| Pipeline.MergeIs | src/secure_rag/orchestration/pipeline.py:357-369 | a merge repeats no chunk, loses none, and begins with a duplicate-free first list |
| Pipeline.MergeKeepsFirsts | src/secure_rag/orchestration/pipeline.py:357-369 | it is the two lists one after the other with only the first hit of each chunk kept |
| ProviderLoop.RunLoop | src/secure_rag/orchestration/pipeline.py:186-272 | the provider loop computes the rounds function: ending, calls, evidence and bridge calls |
| ProviderLoop.UpdateReady | src/secure_rag/orchestration/pipeline.py:258-272 | an update during the loop is refused exactly when its fields are not clean |
| ProviderLoop.FinishOutcome | src/secure_rag/orchestration/pipeline.py:214-227 | staging and restoring a text succeed exactly when it is clean and not too long, not blank, and has no marker-like token outside the mapping or such tokens are tolerated; then it is on disk with its markers substituted |
| ProviderLoop.OfferIs | src/secure_rag/orchestration/pipeline.py:199-217 | what is staged for each reply: an answer as it stands, the fixed text for an unreadable one and for a request when no iteration is left, otherwise nothing |
| ProviderLoop.LastReplyDecides | src/secure_rag/orchestration/pipeline.py:199-249 | every reply but the last is a retrieval request, and what is answered is the last reply's text or the fixed one it calls for |
| ProviderLoop.IterationCounts | src/secure_rag/orchestration/pipeline.py:186-249 | every refinement that adds a chunk is one more iteration, and one that adds none makes the next call the last |
| ProviderLoop.RunCounts | src/secure_rag/orchestration/pipeline.py:150-249 | so in a whole run the iteration of the last call is its number, or the greatest |
| ProviderLoop.CallsBounded | src/secure_rag/orchestration/pipeline.py:186-249 | for any provider at most the maximum number of calls, and at most two more than the free room for evidence |
| ProviderLoop.EvidenceGrows | src/secure_rag/orchestration/pipeline.py:245-249 | evidence lists repeat no chunk, stay within the limit and extend all earlier ones |
| Pipeline.EvidenceGrowsIff | src/secure_rag/orchestration/pipeline.py:246-246 | the next list extends a list exactly when that list repeats no chunk |
| ProviderLoop.EvidenceIsOneMerge | src/secure_rag/orchestration/pipeline.py:245-249 | merging and cutting after each search is merging all findings and cutting once |
| Pipeline.FirstEvidenceUnique | src/secure_rag/orchestration/pipeline.py:105-115 | the first list is within the limit, and duplicate-free with an attachment or a duplicate-free search |
| Pipeline.FirstEvidenceIs | src/secure_rag/orchestration/pipeline.py:98-115 | it is the beginning of the search hits, or with an attachment of its hits and then those, each chunk at its first place |
| ProviderLoop.RunRestoresAnswer | src/secure_rag/orchestration/pipeline.py:150-272 | without crashes, for any provider and requests: no call is made exactly when the first request is not clean, every request sent is clean, the last one is the published one, a request for more context ends the run only when no iteration is left or the next request is not clean, and the run answers exactly when its last reply makes it stage a text that the bridge accepts and restores; then the files hold that text with its markers substituted after one update per further call, and otherwise none |
| Session.VaultsExtend | src/secure_rag/orchestration/pipeline.py:121-127 | over the calls of a run nothing issued before one call is changed by it or a later one |
| Session.EverySentFieldRestores | src/secure_rag/orchestration/pipeline.py:121-272 | every field sent in any call restores under the mapping that is published when the run ends to the raw question or hit with its accepted spans, and then the re-applied alias ranges, set to stored values |

## Left out

- RoundTrip.SanitizeRestoresOriginal: one direction only; a PER span whose stored form is its surface form comes back unchanged too, and different stored values may by chance spell the same text.
- Printable labels: round trips ask that safe labels begin with A-Z (`Vaults.Printable`); markers of other labels are not matched, which `Markers.MarkerTextMatches` states exactly.
- Short markers: round trips ask that issued marker bodies have at most 80 characters, so that an issued marker is also marker-like.
- Letters: an alphabet with `isspace` as in Unicode and abstract letter classes, upper case and `casefold` that map one character to one, under the laws of `Alphabet.Lawful`; expansions such as the German sharp s are not modelled. Case-insensitive matching is comparison of folded characters.
- `validate_outbound` after propagation: not claimed, because adjacent occurrences and deleted markers can leave a value behind.
- Recognizer priorities: configured below that of the RAW_MARKER rule, which is 2000.
- Detectors, models, embeddings, similarity and vector search: spans, scores (as reals) and found hits are arbitrary inputs; not-a-number scores are not modelled.
- `SanitizedField` names, citation references, file types and scores in the assembled context, and `sources`.
- Extraction in the index histories: the chunk extents are any function of document identity, revision and index signature, so settings that change chunks without changing the signature are constant.
- Extraction formats, archives, gzip, JSON and SQLite syntax: extraction is data of a file, the tables are maps, a manifest write happens wholly or not at all.
- Reads that fail, builds rows, progress events, reports, extensions, error codes and build identifiers of the index.
- Hashes: distinct values have distinct hashes; a checksum field holds the value it was computed from, and a document's identity is its own.
- Bridge request identifiers, path checks, sources content, time stamps, and the prompt template: the rendered payload is data. A sources file that cannot be written is a cut-off before the manifest.
- `Path.write_text` leaves an unreadable file until its last byte; a partly written atomic file is never seen.
- Cache key validation and locks: keys are arbitrary, each cache has one writer.
- Chunk ends: neither monotone nor of a minimum length, and neither is claimed; the factor 0.65 is any function that does not exceed its argument.
- Page locations of PDF files and marker locations of other formats; `_BoundedParts`.
- Verified loading of a hit's document (`_load_verified`): any function of the hit.
- The reply parser and the search of a retrieval request: a provider call is one of five outcomes, with everything its searches found. The stub and manual providers. The loop takes its requests as given per call; `Session` builds them from given fields, spans and alias listings.
- Access policy, tokens, path containment, web and command-line entry points, chat trimming, configuration and logging.
