# Verified model of the catalog importer, agent operations, agent consent and search

This project models the stateful engines of the repository in Dafny and proves what they promise. `dafny verify
dfyconfig.toml` checks all of it.

Text is a sequence of UTF-16 code units (`text.dfy`), because the code prints, matches, measures and slices JavaScript
strings. SHA-256, OpenCC, UUIDs and clocks are parameters; where a proof needs a hash to tell values apart, that is a
visible hypothesis. A database statement is one atomic, guarded step on tables held in maps and sequences.

## What is modelled

**Import plan and apply** (`canonical_json.dfy`, `title_duplicates.dfy`, `title_groups.dfy`, `catalog_model.dfy`,
`import_*.dfy`), for `catalog-import/v2`. `ImportPlan.Plan` is the dry run as a function of the tables and
`ImportApply.Apply` the transaction. `ImportDryRun` holds the loops of the dry run (findings pushed, counters raised,
collections compared as canonical JSON) and `ImportStore.CatalogStore` the statements that change the tables in place and
roll back; both are proved to compute those functions. About the functions are proved: applying settles exactly the rows
of the envelope and nothing else, planning an applied envelope of updates again finds nothing, nothing unapproved
changes, an accepted request goes through exactly if nothing clashes, and over any sequence of calls bindings last,
creates do not repeat and replays do nothing. `ImportReadiness`, `ImportCollections`, `ImportAuthorization`,
`ImportOutcomes` and `ImportRecords` say when a plan is ready, what it names, when a request is carried out and what that
leaves, all in terms of the rows of the envelope and of the tables alone. Canonical JSON is shown unambiguous by a parser
that undoes the printer, and its text is spelled out.

**Fenced agent operations** (`agent_operations.dfy`, `agent_operation_runs.dfy`, `agent_operation_histories.dfy`). A
class holds the rows; its methods are the guarded updates. Theorems are about every run of any number of executors, and
say when each write is accepted by the accepted writes before it. What is relied on of the calling service is the
predicate `AgentOperationRuns.Lawful`: its clock does not run backwards, each claim draws a new lease token, and a chunk
continues what its executor last saw.

**Consent to grant** (`connection_consents.dfy`, `connection_resume.dfy`, `connection_resume_runs.dfy`,
`connection_resume_traces.dfy`, `connection_grant_fates.dfy`). `ConnectionResume.Next` is one step of
`resumeInteraction`; `ResumeInteraction` is the procedure itself, equal to its six steps taken without interruption.
Theorems are about every interleaving of such steps with opening, arming, deciding and connections that move. Of a move
is relied on that the generation does not fall and that it names no grant, which only `setCurrentGrant` writes.

**Search and its index** (`catalog_search.dfy`, `catalog_search_texts.dfy`, `catalog_search_index.dfy`,
`catalog_search_history.dfy`). A LIKE matcher, the generated statement and the substring oracle, for an arbitrary
normalisation, and which texts of a record they find; then the documents derived from entries, the triggers that
invalidate them with the columns they watch, refresh and rebuild, and the gate in front of a search.

**WebP walk and media sync** (`webp.dfy`, `media_sync.dfy`). The chunk walk against encoders of the three image chunks,
after RFC 9649 sections 2.3 to 2.7 and 3.4 and RFC 6386 section 9.1; and the sync over any sequence of partly failing
runs.

**Mentions, published text, columns** (`mention_references.dfy`, `publishing_text.dfy`, `masonry.dfy`).

What does not hold as written is stated with an input and an exact condition:

- Canonical JSON is ambiguous for arrays that consist of one undefined cell (`LoneCellPrintsAsNothing`), and only for
  them (`LoneCellsAreTheOnlyAmbiguity`).
- The SQL refuses what the oracle matches on queries of more than 200 units (`LongQueryDiffers`) and on queries that
  normalise to no word (`WordlessQueryDiffers`), and they agree on all others, unless a blank query normalises to words
  (`AgreeExactly`). Whether OpenCC can empty a text or fill a blank one is not decided here.
- The opening comment of `resume.ts`, and that of `setCurrentGrant`, say that a grant whose connection has moved is
  destroyed. The code leaves its row behind (`MovedConnectionLeavesGrant`), and likewise when the consent is spent
  already; these are the orphans, and there are no others (`OrphanedExactly`). An orphan of the first kind is pointed at
  by nothing (`UnpointedIsUnreachable`); one of the second kind may be what the connection names while another resume
  was granted (`RefusedResumeDisplaces`), because a connection names a grant until another resume points it
  (`NamedUntilDisplaced`).
- The approval of every finding of a plan does not mean that the rows are applied, because entries may have taken their
  titles since: the approved change of a title to that of a second entry is refused (`TakenTitleIsRefused`), and a change
  or a create is carried out exactly if its title is free and nothing clashes (`OneRetitleIsCarriedOut`,
  `OneCreateIsCarriedOut`).

Two kinds of checks turn out to decide nothing: the bound in UTF-16 units of published text (`PreBoundDecidesNothing`)
and the surrogate checks of mention references (`SurrogateChecksAreImplied`).

## Model

| member | source | states |
|---|---|---|
| `CanonicalJson.ParserUndoesPrinter` | services/catalog-importer/src/index.ts:89-97 | a parser reads back every printed value, up to the order of object keys, which is what the printed text determines |
| `CanonicalJson.StableJsonUnambiguous` | services/catalog-importer/src/index.ts:89-97 | two values print alike if and only if they are equal up to object key order at every depth |
| `CanonicalJson.LoneCellsAreTheOnlyAmbiguity` | services/catalog-importer/src/index.ts:89-97 | a value prints like its normal form, and is equal to it up to key order exactly if no array in it is one undefined cell |
| `CanonicalJson.LoneCellPrintsAsNothing` | services/catalog-importer/src/index.ts:89-97 | an array of one undefined cell prints as the empty array, which it is not equal to |
| `CanonicalJson.EscapeParses` | services/catalog-importer/src/index.ts:90-94 | string escaping after section 7 of RFC 8259 loses nothing, lone surrogates included |
| `CanonicalJson.ObjectsPrint` | services/catalog-importer/src/index.ts:92-96 | an object prints as its members between braces, separated by commas, in ascending order of the code units of their keys |
| `CanonicalJson.ListsPrint` | services/catalog-importer/src/index.ts:91 | a list prints as its cells between brackets, separated by commas, an undefined cell as nothing |
| `ImportReading.ContributorsCompared` | services/catalog-importer/src/index.ts:731-747 | comparing contributor lists as canonical JSON is comparing the lists |
| `ImportReading.CitationsCompared` | services/catalog-importer/src/index.ts:749-812 | comparing citation lists as canonical JSON is comparing them with undefined and ["record"] scopes identified and scopes in order |
| `ImportReading.ContributorsCounted` | services/catalog-importer/src/index.ts:731-738 | each contributor is read of an import as often as the envelope gives it, and no other is |
| `ImportReading.AliasesCounted` | services/catalog-importer/src/index.ts:1782-1789 | each alias is read of an import as often as the envelope gives it, and no other is |
| `ImportReading.ScopesCompared` | services/catalog-importer/src/index.ts:749-771 | nonempty scope lists without repetition read alike exactly if they cover the same, where no list covers the record |
| `ImportCollections.CollectionsFoundExactly` | services/catalog-importer/src/index.ts:1301-1365 | a citations finding exists exactly if citations there are get cleared, or on REPLACE some citation is given but not held or held but not given, by position, texts or what it covers; so for contributors |
| `ImportDryRun.AliasesCompared` | services/catalog-importer/src/index.ts:375-396 | comparing sorted alias keys as canonical JSON is comparing aliases with their types in any order, even if an alias contains NUL |
| `TitleDuplicates.FlaggedExactly` | services/catalog-importer/src/index.ts:850-896 | an import id is flagged exactly if another eligible row, or an entry its own title group does not target, has its title |
| `TitleDuplicates.CandidatesPartition` | services/catalog-importer/src/index.ts:868-920 | each flagged id lies in exactly one candidate, and generated references collide with no import id and not with each other |
| `TitleDuplicates.AnalysisIgnoresOrder` | services/catalog-importer/src/index.ts:850-924 | the analysis is the same for any order of the rows and of the matches |
| `TitleDuplicates.AnalysisSettles` | services/catalog-importer/src/index.ts:831-924 | the open-ended searches for references end if the hashed references to the matching entries are import ids and stay apart for as many tries as there are import ids and matches, and one more |
| `TitleDuplicates.SomeHashesSpread` | services/catalog-importer/src/index.ts:831-848 | for any entries and any number of tries an import id can spell out, there is a hash that meets this |
| `TitleDuplicates.MemberReference` | services/catalog-importer/src/index.ts:831-848 | the loop returns the first reference that is an import id nobody holds |
| `TitleDuplicates.AnalyzeTitleDuplicates` | services/catalog-importer/src/index.ts:850-924 | the loops over rows, matches and titles compute the analysis |
| `TitleGroups.OneCandidateForEachTitle` | services/catalog-importer/src/index.ts:868-920 | there is one candidate for each title shared, and it lists all rows with the title and one reference for each entry with it that they do not target |
| `ImportPlan.FirstRebound` | services/catalog-importer/src/index.ts:1080-1100 | a rebound source is found exactly if some listed source is bound to another entry than the target |
| `ImportDryRun.DryRun` | services/catalog-importer/src/index.ts:926-1427 | the loops of the dry run, with their text comparisons, compute the plan |
| `ImportDryRun.ClassifyRow` | services/catalog-importer/src/index.ts:1052-1382 | the body of the loop pushes the findings and raises the counter that the verdict on the row says |
| `ImportPlanFacts.PlanIsConsistent` | services/catalog-importer/src/index.ts:1384-1426 | add, update, unchanged, conflict and error sum to the row count, no blocker of a finding is missing, and the plan is ready exactly if nothing stops it |
| `ImportPlanFacts.UnblockedIsClean` | services/catalog-importer/src/index.ts:1373-1381 | a row that is neither flagged nor blocked has only its changes as findings; the unchanged branch of a create row is unreachable |
| `ImportPlanFacts.PlanAndApplicationAgree` | services/catalog-importer/src/index.ts:1803-1805 | an accepted plan has no conflict and no error, adds as many as there are create rows, and its counts are what applying reports |
| `ImportReadiness.ReadyExactly` | services/catalog-importer/src/index.ts:1052-1425 | a plan is ready exactly if every row lists its own source and none bound to another entry, its target exists, it has no owner note, and its title is free |
| `ImportReadiness.AliasesStopExactly` | services/catalog-importer/src/index.ts:377-396 | if its searches end, a dry run throws over aliases exactly if an update nothing else stands against gives some alias more or less often than its entry has it |
| `ImportReadiness.ReadyPlanNames` | services/catalog-importer/src/index.ts:1144-1365 | a ready plan names of an update exactly the fields, collections, sources and facts that differ, and all of it needs approval but a summary and a description, historical context or research that is not cleared |
| `ImportEffects.ChangesReported` | services/catalog-importer/src/index.ts:1144-1365 | the findings of an update name exactly the fields and collections that differ from what the row asks for |
| `ImportStatements.CitationsReadBack` | services/catalog-importer/src/index.ts:2076-2111 | citations and scopes written by the statements read back as those of the import |
| `ImportSettling.RowSettles` | services/catalog-importer/src/index.ts:1810-2146 | the statements of one row merge what it supplies into the entry, install its collections, bind its sources, and leave every other entry and source alone |
| `ImportRuns.ApplySettles` | services/catalog-importer/src/index.ts:1659-2178 | an application settles every row against the tables it started from, changes nothing else, keeps the tables valid and logs its result |
| `ImportOutcomes.EveryRowIsInstalled` | services/catalog-importer/src/index.ts:1810-2122 | after a carried-out application what each row supplies stands in its entry, of a created or replaced collection exactly the envelope's rows do, aliases agree in number, its sources are bound, and what no row is for is as it was |
| `ImportRecords.EveryRowIsRecorded` | services/catalog-importer/src/index.ts:2124-2165 | each row has one item with its source, its entry and how it fared, and the stored result counts these and maps every row |
| `ImportCommits.CarriedOutExactly` | services/catalog-importer/src/index.ts:1659-2178 | a request that is neither refused nor a replay is carried out exactly if allocated ids are fresh and all ids apart, no written contributor repeats a name with its role, and neither the operation, its hashes nor its items clash |
| `ImportAuthorization.CarriedOutIfInOrder` | services/catalog-importer/src/index.ts:1562-1632 | a request is carried out exactly if its plan is still the plan and ready, it is bound and approved with what its runtime asks for, and no id, operation, item or contributor name clashes |
| `ImportFixedPoint.ApplyReachesFixedPoint` | services/catalog-importer/src/index.ts:926-1427 | planning an applied envelope of updates again yields no finding, no candidate, every row unchanged, and a ready plan |
| `ImportApproval.NothingUnapproved` | services/catalog-importer/src/index.ts:1562-1615 | whatever differs in an entry, a collection or a source after an application has a finding, approved unless the change is free; what is not supplied or not targeted is as it was |
| `ImportOnce.BindingsLast` | services/catalog-importer/src/index.ts:1634-1657 | over any sequence of calls a source stays bound to the entry it was first bound to |
| `ImportOnce.NothingIsCreatedTwice` | services/catalog-importer/src/index.ts:1080-1100 | after a call is carried out, every later row that lists one of its sources without targeting its entry is rebound, and its plan not ready |
| `ImportOnce.ReplaysReturnTheResult` | services/catalog-importer/src/index.ts:1512-1560 | a request with a known operation id succeeds exactly if it repeats the operation, and then returns the stored result and changes no table |
| `ImportOnce.SendingAgainIsSafe` | services/catalog-importer/src/index.ts:1712-1726 | sending a carried-out request again, after any other calls, changes nothing |
| `ImportLiveness.OneCreateIsCarriedOut` | services/catalog-importer/src/index.ts:1659-2178 | on any valid tables and any truthful answer to the title query, an approved envelope that creates one entry is carried out exactly if its source is unknown, no entry has its title, and nothing clashes |
| `ImportLiveness.CarriedOutTitlesAreFree` | services/catalog-importer/src/index.ts:878-896 | whatever was approved, a truthfully answered call is carried out only if no other row has the title of a row, and every entry that has it is the target of a row of that title |
| `ImportLiveness.OneRetitleIsCarriedOut` | services/catalog-importer/src/index.ts:1961-2049 | on any valid tables and any truthful answer, an approved change of one title is carried out exactly if no other entry has the new title and nothing clashes, and then the entry has it |
| `ImportLiveness.SomeCallIsCarriedOut` | services/catalog-importer/src/index.ts:1659-2178 | with any hashes there is a truthfully answered call that empty tables carry out, so the theorems about carried-out calls are about something |
| `ImportLiveness.SomeUpdateIsCarriedOut` | services/catalog-importer/src/index.ts:1961-2049 | with any hashes there is a truthfully answered call with a finding that needs approval, and that the tables of one entry carry out |
| `ImportLiveness.TakenTitleIsRefused` | services/catalog-importer/src/index.ts:878-896 | on two entries, the approved change of one title to that of the other is not carried out, though nothing clashes |
| `ImportStore.CatalogStore.Apply` | services/catalog-importer/src/index.ts:1659-2178 | the statements in place, with rollback, compute the application function, and a refusal leaves every table as it was |
| `ImportStore.AssignColumns` | services/catalog-importer/src/index.ts:1997-2049 | the assignments collected from the findings set exactly the columns that have one, or fail for a display field without a value |
| `AgentOperations.AgentAdministrationAdapter.CreateOperation` | services/community-postgres/src/agent-administration-adapter.ts:653-696 | inserts once per request identity, for 1 to 500 targets and an undone operation that exists; a repeat returns the stored operation if the fingerprint is the same |
| `AgentOperations.AgentAdministrationAdapter.ClaimExecution` | services/community-postgres/src/agent-administration-adapter.ts:790-818 | takes an approved or executing operation whose lease is free or has run out, and nothing else |
| `AgentOperations.AgentAdministrationAdapter.RecordChunk` | services/community-postgres/src/agent-administration-adapter.ts:820-858 | writes only for the holder of a live lease |
| `AgentOperations.AgentAdministrationAdapter.ApproveOperation` | services/community-postgres/src/agent-administration-adapter.ts:760-773 | approves only a prepared operation that has not expired |
| `AgentOperations.AgentAdministrationAdapter.CancelOperation` | services/community-postgres/src/agent-administration-adapter.ts:775-788 | cancels at once before execution, and only marks an executing operation |
| `AgentOperationRuns.RunsAreSafe` | services/community-postgres/src/agent-administration-adapter.ts:653-858 | in every lawful run there are next_index results, without gaps and within target_count, states and times are coupled, and requests are unique |
| `AgentOperationRuns.UndoneOperationsExist` | database/community-migrations/20260917010000_agent_administration.sql:44-57 | in every run, what an operation undoes is an operation |
| `AgentOperationRuns.ResultsAreTheAcceptedChunks` | services/community-postgres/src/agent-administration-adapter.ts:835-840 | the stored results are exactly the accepted chunks, in order |
| `AgentOperationRuns.RecordsAreFenced` | services/community-postgres/src/agent-administration-adapter.ts:820-858 | a chunk is accepted exactly if its executor's last success granted a lease that has not run out and nobody claimed or recorded since |
| `AgentOperationRuns.StaleExecutorsHaveNoEffect` | services/community-postgres/src/agent-administration-adapter.ts:165-171 | once another executor has claimed the operation nothing a former one records changes anything, ever after |
| `AgentOperationRuns.RowsOnlyMoveForward` | services/community-postgres/src/agent-administration-adapter.ts:760-858 | targets, fingerprint and request never change, results only grow, terminal states absorb, and any change raises the version |
| `AgentOperationRuns.ApprovalPrecedesExecution` | services/community-postgres/src/agent-administration-adapter.ts:760-805 | a started operation was approved by an earlier accepted write, made while it was prepared and had not expired |
| `AgentOperationHistories.ClaimsAreFenced` | services/community-postgres/src/agent-administration-adapter.ts:790-818 | a claim is accepted exactly if the operation exists, is approved or executing, and no granted lease stands that has not run out |
| `AgentOperationHistories.ClaimsNeed` | services/community-postgres/src/agent-administration-adapter.ts:790-818 | so exactly after an approval, before any end, if it was not cancelled unclaimed and no live lease stands |
| `AgentOperationHistories.CreatesNeed` | services/community-postgres/src/agent-administration-adapter.ts:653-696 | a create is accepted exactly of 1 to 500 targets under an id and a request not used before, undoing nothing or what was created |
| `AgentOperationHistories.ApprovalsNeed` | services/community-postgres/src/agent-administration-adapter.ts:760-773 | an approval is accepted exactly of what was created, has not expired, and was neither approved nor cancelled |
| `AgentOperationHistories.CancelsNeed` | services/community-postgres/src/agent-administration-adapter.ts:775-788 | a cancellation is accepted exactly of what was created, has not ended, and was not cancelled before being claimed |
| `AgentOperationHistories.StateTellsHistory` | services/community-postgres/src/agent-administration-adapter.ts:653-858 | the stored state says which writes were accepted: approval, claim, cancellation and the end recorded |
| `AgentOperationHistories.TimesTellHistory` | services/community-postgres/src/agent-administration-adapter.ts:760-858 | the stored times are those of the first claim, the first cancellation, the approval, and the end |
| `AgentOperationHistories.VersionTellsHistory` | services/community-postgres/src/agent-administration-adapter.ts:760-858 | the version counts the accepted writes, and the stored approval is that of the write that approved |
| `ConnectionConsents.Stores.Decide` | services/community-postgres/src/agent-connection-consents.ts:398-441 | decides only a live, undecided row with the armed ticket and human, and a generation exactly for an approval |
| `ConnectionConsents.Stores.Arm` | services/community-postgres/src/agent-connection-consents.ts:338-365 | arms only an undecided row within its deadline, with a ticket no other row holds |
| `ConnectionConsents.Stores.SetCurrentGrant` | services/community-postgres/src/agent-connection-store.ts:741-762 | points only an authorized connection that is not revoked and at the given generation |
| `ConnectionResume.ResumeInteraction` | services/agent-authorization/src/resume.ts:70-189 | the procedure with its early refusals is its six steps taken without interruption |
| `ConnectionResumeRuns.GrantedOnceAsConsented` | services/agent-authorization/src/resume.ts:89-189 | in every interleaving at most one resume per consent is granted, exactly if the consent is spent, and its grant is the snapshot of the frozen consent |
| `ConnectionResumeRuns.CopyEqualsRowWhenSpent` | services/agent-authorization/src/resume.ts:170-178 | when a resume is granted, the row it spends equals the copy it read at the start |
| `ConnectionResumeRuns.GrantedWasPointed` | services/agent-authorization/src/resume.ts:159-168 | a granted resume pointed its connection while that was authorized and at the consented generation |
| `ConnectionResumeTraces.GrantedResumeWentThrough` | services/agent-authorization/src/resume.ts:70-189 | a granted resume began for its own interaction with the consent's client, read the consent approved and in time, found the connection authorized, not revoked and at the consented generation, again when pointing it, and its grant says column by column what the consent says |
| `ConnectionGrantFates.OrphanedExactly` | services/agent-authorization/src/resume.ts:143-178 | a grant row that a resume wrote stays; once the resume has ended no consent names it exactly if the connection could not be pointed at it or the consent could not be spent on it |
| `ConnectionGrantFates.UnpointedIsUnreachable` | services/agent-authorization/src/resume.ts:155-168 | a grant that its connection could not be pointed at is pointed at by nothing, ever after |
| `ConnectionGrantFates.MovedConnectionLeavesGrant` | services/agent-authorization/src/resume.ts:23-25 | in a run where the connection moves between being read and being pointed, the resume is refused and its grant row stays |
| `ConnectionGrantFates.NamedUntilDisplaced` | services/agent-authorization/src/resume.ts:159-178 | from the pointing step on, at being granted too, a connection names the grant exactly until another resume points it |
| `ConnectionGrantFates.RefusedResumeDisplaces` | services/agent-authorization/src/resume.ts:159-178 | in a run of two resumes of one consent, one is granted while the connection names the orphan of the other, which was refused |
| `ConnectionGrantFates.PointersAlwaysAreGrants` | database/community-migrations/20260918030000_agent_connection_invariants.sql:104-116 | in every run a connection names no grant or one that exists and was granted for this connection |
| `ConnectionResumeRuns.ConsentsOnlyMoveForward` | services/community-postgres/src/agent-connection-consents.ts:299-472 | enforced facts never change, a decided row changes only by its single resume, and a spent row never changes |
| `ConnectionResumeRuns.DecidesByTheLastArm` | services/community-postgres/src/agent-connection-consents.ts:382-441 | a decision is accepted exactly with the ticket and the human of the most recent arming, on a live row |
| `ConnectionResumeTraces.EnforcedTellsHistory` | services/community-postgres/src/agent-connection-consents.ts:299-322 | what a consent enforces was fixed by the first opening of its interaction with an allowed preset and a deadline ahead |
| `ConnectionResumeTraces.ArmsExactly` | services/community-postgres/src/agent-connection-consents.ts:338-365 | an arming is accepted exactly of an interaction opened in time, before its deadline and any decision, for a connection that exists, with a ticket no other was last armed with |
| `ConnectionResumeTraces.DecidesExactly` | services/community-postgres/src/agent-connection-consents.ts:398-441 | a decision is accepted exactly of such an interaction with the ticket and human last armed, and with a generation exactly for an approval |
| `ConnectionResumeRuns.DecisionsAreAttributed` | services/community-postgres/src/agent-connection-consents.ts:398-441 | a decided row was decided once, under its most recent arming, whose human and connection it carries |
| `ConnectionResumeRuns.ReachableRowsParse` | services/community-postgres/src/agent-connection-consents.ts:171-250 | every reachable row satisfies the couplings that parsing checks, and no two rows hold one ticket |
| `CatalogSearch.PatternMatchesSubstring` | services/catalog-postgres/src/search-queries.ts:11-12 | the generated LIKE pattern matches exactly the texts that contain the part, whatever characters it holds |
| `CatalogSearch.SqlRefinesOracle` | services/catalog-postgres/src/search-queries.ts:22-62 | filter and CASE rank equal the oracle's match and tier, for every document and every query that can be built |
| `CatalogSearch.AgreeExactly` | services/catalog-postgres/src/search-queries.ts:22-62 | statement and oracle agree on every document, and already on every record, exactly if the query is blank and normalises to no word, or is not, keeps a word and has at most 200 units |
| `CatalogSearch.LongQueryDiffers` | services/catalog-postgres/src/search-queries.ts:31-33 | 201 letters are refused, and the oracle finds a record titled like them |
| `CatalogSearch.WordlessQueryDiffers` | services/catalog-postgres/src/search-queries.ts:31-33 | a query left without a word is refused, and the oracle finds a record titled like it |
| `CatalogSearch.TiersNest` | packages/search/src/index.ts:16-98 | in a projected document each tier implies every later one |
| `CatalogSearch.RankIsTheFirstTier` | packages/search/src/index.ts:74-98 | a document matches exactly if some tier applies, and is ranked by the first that does |
| `CatalogSearchTexts.WordsAtSpace` | packages/search/src/index.ts:81 | a query splits at every space into the words of its two sides |
| `CatalogSearchTexts.FoundAs` | packages/search/src/index.ts:35-98 | under a normalisation that works line by line, what a record is found as is decided by where the words occur: its normalised title and aliases, its contributors and structured values, or its summary, description and transcription |
| `CatalogSearchTexts.OneWordIsFound` | packages/search/src/index.ts:35-98 | where the normalisation leaves text alone, one word finds exactly the records with it in one of their texts, as what says which |
| `CatalogSearchTexts.EntryFoundByWords` | services/catalog-postgres/src/search-documents.ts:62-105 | then an entry is found exactly if each word occurs in its title, an alias, a contributor, its summary, its period label or any field with a text but the historical context and the research, or is the dot of a derived period label |
| `CatalogSearch.ExactMatchesAreReturned` | services/catalog-postgres/src/search-queries.ts:48-56 | a record whose title or alias equals the trimmed query is always returned, in the first tiers |
| `CatalogSearchIndex.EveryRunIsCoherent` | services/catalog-postgres/src/search-documents.ts:107-165 | in every reachable state a document with the current version is the projection of the live source |
| `CatalogSearchIndex.ProjectionReadsWatched` | services/catalog-postgres/src/search-documents.ts:62-105 | the projection of an entry reads no column that the trigger leaves out |
| `CatalogSearchIndex.CatalogSearchStore.UpdateEntry` | database/migrations/20260908010000_catalog_search_v1.sql:54-60 | an update of an entry invalidates its document exactly if it sets a column that the trigger lists, and documents stay coherent either way |
| `CatalogSearchIndex.CatalogSearchStore.WriteChildren` | database/migrations/20260908010000_catalog_search_v1.sql:62-68 | any write to the aliases or contributors of an entry invalidates its document |
| `CatalogSearchIndex.CatalogSearchStore.Refresh` | services/catalog-postgres/src/search-documents.ts:107-137 | leaves the current projection of the entry, and nothing for an entry that does not exist |
| `CatalogSearchIndex.CatalogSearchStore.Rebuild` | services/catalog-postgres/src/search-documents.ts:140-168 | ends with exactly one document per entry, each current |
| `CatalogSearchIndex.CatalogSearchStore.Search` | services/catalog-postgres/src/adapter.ts:119-140 | is unavailable exactly if some entry lacks a current document, and otherwise finds what searching the sources directly finds |
| `CatalogSearchIndex.AnswerIgnoresScan` | services/catalog-postgres/src/search-queries.ts:64-77 | the ordered answer does not depend on the order in which rows are scanned |
| `CatalogSearchIndex.AnswerSays` | services/catalog-postgres/src/search-queries.ts:64-77 | the answer is the matching entries of the kind asked for, each once, lower ranks first and then in order of the code units of their ids |
| `CatalogSearchHistory.CurrentTellsHistory` | database/migrations/20260908010000_catalog_search_v1.sql:21-77 | in every run an entry has a current document exactly if it was refreshed and since then no watched column, child row, truncation or deletion touched it |
| `Webp.WebpDimensions` | services/catalog-importer/src/pilot.ts:296-337 | the walk ends on every buffer without reading outside it, and computes the walk function |
| `Webp.WalkInvertsEncoding` | services/catalog-importer/src/pilot.ts:296-337 | after any other chunks, odd sizes padded, the width and height encoded in a VP8X, VP8 or VP8L chunk are returned |
| `Webp.WalkFindsAnEncoding` | services/catalog-importer/src/pilot.ts:307-335 | whenever dimensions are returned, the buffer is other chunks followed by a chunk that says them |
| `Webp.ContainersAreFiles` | services/catalog-importer/src/pilot.ts:299-305 | a buffer is refused as a container exactly if it is not the header of some body of at least 8 bytes and that body |
| `Webp.FailuresExactly` | services/catalog-importer/src/pilot.ts:306-336 | a container has a truncated chunk exactly if, after chunks that say nothing, one is cut off, and no dimensions exactly if no room for a header is left there |
| `MediaSync.ReadPilotMedia` | services/catalog-importer/src/pilot.ts:184-261 | accepts exactly manifests with distinct ids and keys, and per catalog consecutive positions and one representative |
| `MediaSync.ManifestExactly` | services/catalog-importer/src/pilot.ts:194-260 | these are exactly 20 rows, all ids and keys apart, each in scope, those of a catalog taking each place from 0 to the agreed number, and one of them chosen |
| `MediaSync.MediaStore.Sync` | services/catalog-importer/src/pilot.ts:636-785 | refuses, in this order, an invalid manifest, an operation that is not applied or bound otherwise, a mapping that misses a catalog, and foreign rows; and otherwise runs the rows in order, one result each |
| `MediaSync.FrozenSetIsValid` | services/catalog-importer/src/pilot.ts:660-686 | the set a matching operation freezes is one the other theorems are about, if the operation keeps its catalogs apart |
| `MediaSync.SyncRunsAs` | services/catalog-importer/src/pilot.ts:687-782 | each row reports its own outcome, a failed row changes nothing, a row that proceeds is registered, and none conflicts |
| `MediaSync.RunsOnlyAddExpected` | services/catalog-importer/src/pilot.ts:612-634 | over any sequence of partly failing runs the frozen part of the table stays within the expected registrations and nothing else changes |
| `MediaSync.CleanRunCompletes` | services/catalog-importer/src/pilot.ts:687-782 | a run without failures ends with exactly the expected set |
| `MediaSync.ProceedingRegisters` | services/catalog-importer/src/pilot.ts:594-604 | a row that proceeds ends registered as the manifest says, column by column, in the catalog its source became |
| `MediaSync.CompatibleExactly` | services/catalog-importer/src/pilot.ts:612-634 | a table is accepted exactly if whatever shares an id, a catalog or an object with the frozen set is one of its rows, registered as it says |
| `MediaSync.CompleteRunReuses` | services/catalog-importer/src/pilot.ts:716-756 | a run on a complete set changes nothing and reports every row that proceeds as reused |
| `MentionReferences.ValidMentionReferences` | packages/contracts/src/mention-references.ts:21-44 | the loop decides: at most 20 references, each naming its person without splitting a pair, pairwise in order and apart, of different people |
| `MentionReferences.ValidExactly` | packages/contracts/src/mention-references.ts:21-44 | with ASCII handles these are exactly references that stand unit for unit in the normal form, one after another, of different people, at most 20 |
| `MentionReferences.SameOnNormalForm` | packages/contracts/src/mention-references.ts:14-26 | the answer is the same on raw and on normalised text |
| `MentionReferences.SurrogateChecksAreImplied` | packages/contracts/src/mention-references.ts:16-36 | with ASCII handles the surrogate checks follow from the text matching at the offsets |
| `MentionReferences.PiecesRestore` | packages/contracts/src/mention-references.ts:22-44 | cutting a text at valid references loses and repeats nothing |
| `PublishingText.AcceptedTextIsStable` | packages/contracts/src/work-publishing-text.ts:76-92 | accepted text is accepted again in its normal form, with the same value and length, and passes the schema for stored text |
| `PublishingText.PreBoundDecidesNothing` | packages/contracts/src/work-publishing-schemas.ts:193-220 | the bound in UTF-16 units never refuses what the code point rule accepts |
| `PublishingText.StoredTextIsNormal` | packages/contracts/src/work-publishing-schemas.ts:222-237 | what the stored schema passes, if it has no CR, is exactly what the body rule leaves unchanged |
| `PublishingText.EarlierBoundIsKept` | packages/contracts/src/work-publishing-text.ts:10-12 | of text within the earlier bound in UTF-16 units only characters and a line break in a single line decide, never the length |
| `PublishingText.CodePointBounds` | packages/contracts/src/work-publishing-text.ts:39-40 | the code point count is at most the UTF-16 length, which is at most twice the count |
| `PublishingText.CodePointsAreUnitsLessPairs` | packages/contracts/src/work-publishing-text.ts:39-40 | the count is that of the code units less that of the surrogate pairs |
| `PublishingText.InvalidExactly` | packages/contracts/src/work-publishing-text.ts:42-44 | characters are refused exactly if some unit is NUL or a surrogate without its partner |
| `PublishingText.IssueExactly` | packages/contracts/src/work-publishing-text.ts:76-92 | the issue is the first of: such a unit, too many code points in the normal form or the raw text, a line break in a single line |
| `Text.LineBreaksPiecewise` | packages/contracts/src/work-publishing-text.ts:46-48 | line breaks are replaced piece by piece wherever a text is cut, except within a CRLF |
| `Text.TrimIsUnique` | packages/contracts/src/work-publishing-text.ts:50-56 | a trimmed text between whitespace is what trimming leaves, whatever the whitespace |
| `Masonry.Layout` | docs/prototypes/mobile-preview/preview.js:3109-3125 | the loop over the heights array puts each item into the first of the shortest columns |
| `Masonry.ColumnsBalance` | docs/prototypes/mobile-preview/preview.js:3109-3121 | any two columns differ by at most the largest item with its gap |
| `Masonry.TallestIsBounded` | docs/prototypes/mobile-preview/preview.js:3109-3121 | m times the tallest column is at most the total and m - 1 times the largest item |
| `Masonry.WithinTwiceAnyAssignment` | docs/prototypes/mobile-preview/preview.js:3109-3121 | the tallest column is within 2 - 1/m of that of any other assignment |
| `Masonry.ItemsNeverOverlap` | docs/prototypes/mobile-preview/preview.js:3114-3120 | items of one column never overlap |
| `Masonry.ContainerCovers` | docs/prototypes/mobile-preview/preview.js:3122-3125 | the container's height covers every item |
| `Masonry.ContainerFits` | docs/prototypes/mobile-preview/preview.js:3122-3125 | and it ends where some item does, without a trailing gap |

## Left out

- The `catalog-import/v1` paths, the CSV and XLSX parsers and the envelope schemas; `ValidEnvelope` states what is relied on of a v2 envelope.
- The consistency of a parsed bundle's own hash and row counts with its envelope (`canonicalizeParsedBundle`), beyond the input hash.
- Messages, persistence dispositions, contract versions and completion times of findings and plans, which no decision reads.
- Finding identities are a hash of what each binds rather than its spelled-out text; equal keys give equal ids, and repeated ids refuse a plan.
- The refresh of the search document inside an application, which has its own module, and the failure that can be injected after a number of rows.
- Transactions are atomic: isolation levels, retries, lost connections and commits whose answer is lost are not modelled.
- The list, detail and read paths of the adapters, delegations, principals and the per-target effects of agent operations.
- `AgentOperations.AgentAdministrationAdapter.CreateOperation`: does not check that the principal exists; principals are not part of this model.
- Byte lengths and formats of uids, digests, scopes and handles, which one schema line settles each.
- Connection lifecycle, cookies and redirects of the authorization provider; a connection may move in any way in which its generation does not fall and its grant stays.
- OpenCC; the normalisation is any function on text. LIKE is modelled on UTF-16 units, which agrees with characters for text without lone surrogates.
- `CatalogSearch.SqlRefinesOracle`: asks for a query that is not blank; `AgreeExactly` says what happens on blank ones.
- Pagination and the row mapping of search results.
- `MediaSync.ReadPilotMedia`: does not check the manifest's own hash nor the formats, sizes and paths of single rows, which one line each settles.
- Reading photos, hashing them, talking to the object store and checking the database identity; each is an outcome that a row of a media sync may meet.
- `publishingContentIssues` and `utf8ByteLength`, which add conditions without interplay.
- Measuring, padding and styling of the masonry layout; heights are real numbers.
