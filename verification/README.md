# Civic claim verifier: a verified model

The repository checks statements about Israeli public life against archived official records. This
project models its deterministic engines in Dafny and proves what they guarantee together. Each
module follows one component:

- **JobQueue**, **WorkerProtocol**: the Postgres job table and any number of workers that claim, dispatch and close jobs, with crashes, retries and dead letters.
- **SpanSelection**, **ClaimSlots**, **Checkability**, **Decomposition**: from rule matches to validated claims and the class of a declaration.
- **Rerank**, **Verdict**, **VerdictProperties**: from retrieved evidence to scores, confidence and verdict.
- **Pipeline**, **PipelineProperties**: a statement through decomposition, resolution, time scope, checkability, retrieval, ranking and verdict, with the conflict tasks.
- **Declarations**: from verdicts to attribution edges, the overall relation and the review trigger.
- **Review**: review tasks and their append-only audit log.
- **ArchiveUri**, **ArchiveStore**: the URI printer and parser, and the object store and table written by interleaved archivers.
- **Calendar**, **Temporal**: dates, timestamps as text and as instants, the time normalizer and its Knesset terms.
- **Resolver**, **Adapter**, **Elections**: the entity ladder with its margin rule, the page loop of the adapters, the electoral threshold.
- **Sorting**, **Text**, **Wrappers**: stable sorting, Python's string order and padding, Option and Result.

State that the source changes in place is a class here (`JobTable`, `ReviewRepository`, `Archive`,
`CandidateTable`, `AdapterRun`) whose methods are proved against functions on the old state. The loops
of the source are methods proved against specification functions, and the main results are lemmas
about those functions and about all runs of the transition systems built from them.

## Assumptions

- Axis scores and weights have at most two decimals, so scores are integers in hundredths and overall scores integers in ten-thousandths; the source rounds binary floats to four digits. The electoral threshold is the exact fraction 325/10000.
- Each rule pattern is an arbitrary function from a text to the spans and groups it finds; where a result needs it, these spans are non-empty and lie in the text.
- The other regular expressions, the Hebrew normalizer, string similarity, `int` of a string, SHA-256, lower-casing of extensions, URL joining and all callbacks are arbitrary functions or arbitrary inputs. Lower-casing of vote values and flags is modelled for ASCII letters; no other letter is lower-cased to one of the words compared.
- Identifiers are fresh: an id that exists is an error, as the UNIQUE constraints make it.
- Every statement on the job table and every call on the review tables is one atomic step. The class docstring of the review repository says so (`services/review/src/civic_review/queue.py:87-93`), but the API opens its connection in autocommit mode, so there it is an assumption.
- The table of review tasks accepts the kind `declaration`, as `open_review_task` does. The only constraint in the migrations, `infra/migrations/versions/0002_phase1_domain_schema.py:248-251`, lacks that kind; under it the insert fails and the verifier swallows the error, so no declaration task would ever be opened.
- The clock of the job table does not run backwards.

## Where the code and its documentation disagree

- `decompose` says that equally long spans are resolved by template declaration order; its key compares starts first. `SpanSelection.TieBreakFails` is a concrete failure, the yields of a short Hebrew statement, and `SpanSelection.TemplatesDecideIff` says exactly when the statement holds.
- The claim schema has the vote value `abstain`, but `_normalize_vote_value` does not accept it, so a provider's vote claim in schema terms is dropped (`Decomposition.CanonicalVoteAccepted`, and `Decomposition.VoteClaimAccepted` for every value).
- `mark_failed` calls its back-off exponential; it is quadratic (`WorkerProtocol.WaitedClosedForm`).
- `archive_payload` promises at most one write of an object; a crash or a race between write and insert breaks that (`ArchiveStore.CrashCausesSecondWrite`, with the exact condition in `ArchiveStore.FirstWrite`). The conventions demand an error when other content arrives at an existing key; the code has no such check, and the key's digest makes it unnecessary (`ArchiveStore.RewritesKeepTheDigest`).
- `parse_archive_uri` promises that every URI that parses survives the round trip; a final line feed or a digit of another script breaks that (`ArchiveUri.PrintParsed`). It also promises that every built URI parses; that needs a bucket name the builder does not check (`ArchiveUri.BuildParses`, `ArchiveUri.UpperCaseBucketFails`).
- `DeclarationVerifier.verify` pairs the claims of a declaration with the bundles of a second decomposition of its text. The two endpoints take the language separately, with `he` as default for each, and nothing compares them. If they differ, a claim can get the verdict on another claim (`Declarations.LanguagesMispair`) or none; the pairs are right in all cases if and only if the languages agree (`Declarations.AlignedIffSameLanguage`).
- `classify_declaration_checkability` ends in a `not_checkable` for mixed failures that is never reached (`Checkability.DeclarationTable`).
- `_lookup_fuzzy` says that labels hold hundreds to low thousands of nodes and reads the first 500: beyond that a perfect match can be missed, depending on the order of the scan (`Resolver.ScanOrderMattersBeyondLimit`).

## Model

| member | source | states |
|---|---|---|
| WorkerProtocol.QueueSafety | apps/worker/src/worker/main.py:62-90 | In every state of every run of any number of workers, with a crash possible between any two statements: a job is in at most one worker's hands and then `running`; `attempts` is exactly the number of claims in the history and at most 5; a queued job has attempts left; a dead letter has had all five; no row is ever `failed` |
| WorkerProtocol.SafeStep | services/ingestion/_common/src/civic_ingest/queue.py:101-190 | Each single step keeps that invariant, although the two closing updates never test the status |
| WorkerProtocol.TerminalForever | services/ingestion/_common/src/civic_ingest/queue.py:158-190 | A row that is `done` or `dead_letter` never changes again, whatever the workers do |
| WorkerProtocol.OrphanForever | apps/worker/src/worker/main.py:62-90 | A running row that no live worker holds keeps its row for ever: nothing recovers it |
| WorkerProtocol.OrphanedByCrash | apps/worker/src/worker/main.py:62-90 | A row becomes such an orphan in a step exactly when that step is a crash of the worker that holds it |
| WorkerProtocol.CloseOutcome | apps/worker/src/worker/main.py:77-88 | Closing the k-th attempt of a job, k counted in the history, leaves it `done` without error; with an error a dead letter if k is 5, else queued again k*k seconds later; nothing else of the row changes |
| WorkerProtocol.DoneMeansSucceeded | apps/worker/src/worker/main.py:77-82 | A row becomes `done` in a step if and only if its holder closes it without an error |
| WorkerProtocol.DeadMeansFailedFiveTimes | services/ingestion/_common/src/civic_ingest/queue.py:175-189 | A row becomes a dead letter in a step if and only if its holder closes its fifth attempt with an error |
| WorkerProtocol.SucceededNeverClaimedAgain | apps/worker/src/worker/main.py:77-82 | A job that was dispatched successfully is never claimed again |
| WorkerProtocol.ClaimOutcome | services/ingestion/_common/src/civic_ingest/queue.py:101-124 | A claim takes a queued row that is due, before any less urgent or later one that is not locked, sets it running with one more attempt, and puts it in the worker's hands |
| WorkerProtocol.OtherRowsUntouched | services/ingestion/_common/src/civic_ingest/queue.py:114-189 | No row is removed, and a row changes only by its own claim or by a close of its holder |
| WorkerProtocol.StepSpends | services/ingestion/_common/src/civic_ingest/queue.py:114-121 | A claim and a requeueing failure use up exactly one unit of the potential (twice the remaining attempts, plus one if running), an early finish at least one, an enqueue adds ten, a crash or the passing of time changes nothing |
| WorkerProtocol.WorkerBudget | apps/worker/src/worker/main.py:62-90 | Any run makes at most ten claims and closes for every job initially present or enqueued later, so retries cannot go on for ever |
| WorkerProtocol.QueuedUntilDue | services/ingestion/_common/src/civic_ingest/queue.py:107-110 | A queued row is left unchanged by every worker until its `run_after` has come |
| WorkerProtocol.NoEarlyReclaim | services/ingestion/_common/src/civic_ingest/queue.py:173-190 | After its k-th attempt fails a job is not claimed again for k*k seconds, by any worker; k is counted in the history, not read from the row |
| WorkerProtocol.BackoffSchedule | services/ingestion/_common/src/civic_ingest/queue.py:173-190 | From any claim on, all later running, queued and dead states of that job lie no earlier than the quadratic schedule allows |
| WorkerProtocol.WaitedClosedForm | services/ingestion/_common/src/civic_ingest/queue.py:182-185 | The accumulated back-off before the k-th claim is (k-1)k(2k-1)/6 seconds |
| WorkerProtocol.DeadLetterTakesThirtySeconds | services/ingestion/_common/src/civic_ingest/queue.py:158-190 | At least 30 seconds pass between a job's first claim and its dead letter |
| WorkerProtocol.RunOnce | apps/worker/src/worker/main.py:62-90 | One tick: claims the next row and leaves it done, queued again or dead as the dispatch ended, with every other row as it was; or finds nothing runnable and changes nothing |
| WorkerProtocol.UninterruptedTick | apps/worker/src/worker/main.py:62-90 | An uninterrupted tick is a claim, a delay and a close of the transition system, with the table that `RunOnce` leaves |
| JobQueue.JobTable.Enqueue | services/ingestion/_common/src/civic_ingest/queue.py:51-80 | Inserts one queued row with no attempts, due at the given time or now; a repeated id is an error and changes nothing |
| JobQueue.JobTable.ClaimOne | services/ingestion/_common/src/civic_ingest/queue.py:83-139 | Returns an unlocked queued row that is due, of least priority number and then least run_after, now running with one more attempt; returns none exactly when there is none; an empty list of kinds is an error |
| JobQueue.JobTable.MarkDone | services/ingestion/_common/src/civic_ingest/queue.py:142-155 | Sets the row to done and clears its error, whatever its status; an unknown id changes nothing |
| JobQueue.JobTable.MarkFailed | services/ingestion/_common/src/civic_ingest/queue.py:158-190 | Dead-letters the row once its attempts are used up, leaving `run_after` alone, else requeues it attempts squared seconds from now |
| SpanSelection.Select | services/claim_decomposition/src/civic_claim_decomp/decomposer.py:146-159 | The greedy loop yields a list in key order, without overlaps, in which every match left out overlaps a chosen one that is longer or equally long and no later; of equal spans the first yielded wins |
| SpanSelection.SelectionIsUnique | services/claim_decomposition/src/civic_claim_decomp/decomposer.py:146-159 | Only one list of spans has these properties: it depends on which spans were matched, not on the order or number of yields |
| SpanSelection.SelectionIsDeterministic | services/claim_decomposition/src/civic_claim_decomp/decomposer.py:146-159 | For the same yields the chosen matches themselves, with their templates and groups, are determined |
| SpanSelection.WithinFactorThree | services/claim_decomposition/src/civic_claim_decomp/decomposer.py:146-159 | No set of pairwise non-overlapping matches covers more than 3(n - 1) characters for each selected span of n >= 2 characters (its own length for shorter ones): less than three times what the selection covers |
| SpanSelection.FactorThreeIsSharp | services/claim_decomposition/src/civic_claim_decomp/decomposer.py:146-159 | For every n >= 2 that bound is attained by concrete matches |
| SpanSelection.DisjointCover | services/claim_decomposition/src/civic_claim_decomp/decomposer.py:189-190 | Spans that do not overlap by this test cover exactly as many characters as their lengths add up to |
| SpanSelection.TieBreak | services/claim_decomposition/src/civic_claim_decomp/decomposer.py:137-152 | In any yields in declared order, of two equally long overlapping matches the one that starts later is chosen only if a third chosen match beats the other one; which template is declared first does not matter |
| SpanSelection.TieOfTwo | services/claim_decomposition/src/civic_claim_decomp/decomposer.py:137-152 | When the two are the only matches, the earlier-declared template wins exactly when it does not start later |
| SpanSelection.TemplatesDecideIff | services/claim_decomposition/src/civic_claim_decomp/decomposer.py:137-139 | The documented tie-break by declaration order holds in all yields that can be drawn from a pool of matches if and only if no match of the pool starts later than one it ties with and whose template is declared later |
| SpanSelection.TieBreakFails | services/claim_decomposition/src/civic_claim_decomp/decomposer.py:137-139 | The yields of a concrete Hebrew statement, a vote match and a government-decision match of equal length, on which the documented tie-break fails |
| SpanSelection.FirstSurvivesSorting | services/claim_decomposition/src/civic_claim_decomp/decomposer.py:147-152 | Which of several matches of one span comes first is not changed by the stable sort |
| Decomposition.IterMatches | services/claim_decomposition/src/civic_claim_decomp/rules.py:380-398 | Yields the matches of the templates of the language, template by template, in the order each pattern finds them |
| Decomposition.YieldsMeaning | services/claim_decomposition/src/civic_claim_decomp/rules.py:380-398 | All yields come in declared order and from templates of the language; with patterns that match no empty string their spans are non-empty and lie in the statement |
| Decomposition.YieldsComplete | services/claim_decomposition/src/civic_claim_decomp/rules.py:390-398 | Every match of a template of the language is yielded |
| Decomposition.TemplatesOfLanguage | services/claim_decomposition/src/civic_claim_decomp/rules.py:334-379 | Both languages have templates for the same seven claim types, and none for statements about an action |
| ClaimSlots.TemplatesPartitionSlots | packages/ontology/src/civic_ontology/claim_slots.py:63-124 | For each claim type the required, optional and forbidden slots partition all formal slots |
| ClaimSlots.SlotTable | packages/ontology/src/civic_ontology/claim_slots.py:68-124 | For each claim type, exactly which slots must and which may be filled |
| Checkability.CheckMeaning | services/claim_decomposition/src/civic_claim_decomp/checkability.py:63-81 | Each of the four answers holds if and only if its condition on type, slots, statuses and time does |
| ClaimSlots.ValidateSlots | packages/ontology/src/civic_ontology/claim_slots.py:127-151 | Reports each empty required and each filled forbidden slot exactly once and nothing else; no report if and only if the slots fit the template |
| Checkability.DeclarationTable | services/claim_decomposition/src/civic_claim_decomp/declaration_checkability.py:54-92 | The documented decision table, for every list of checks, in terms of which values occur; the final `not_checkable` branch is dead |
| Checkability.Count | services/claim_decomposition/src/civic_claim_decomp/declaration_checkability.py:68-76 | A count is positive if and only if the value occurs and equals the length if and only if nothing else does |
| Decomposition.Decompose | services/claim_decomposition/src/civic_claim_decomp/decomposer.py:128-186 | Strips the statement, selects among the yields of its language, returns the validated claims of the selection, and the validated output of the provider only when the rules gave no claim and a provider exists |
| Decomposition.BoxRuleMatches | services/claim_decomposition/src/civic_claim_decomp/decomposer.py:161-168 | The loop keeps exactly the claims whose slots validate, in selection order |
| Decomposition.BoxLlmOutput | services/claim_decomposition/src/civic_claim_decomp/decomposer.py:173-178 | The loop keeps exactly the provider claims of a known type whose slots validate, in order |
| Decomposition.RuleClaimParts | services/claim_decomposition/src/civic_claim_decomp/decomposer.py:78-112 | Which group, stripped, fills which slot of a rule claim, and where its type, texts and time phrase come from |
| Decomposition.ThresholdTemplates | services/claim_decomposition/src/civic_claim_decomp/decomposer.py:81-83 | Exactly the two templates for lists below the threshold expect it not to have passed |
| Decomposition.RuleClaimsMembers | services/claim_decomposition/src/civic_claim_decomp/decomposer.py:163-169 | A claim is returned if and only if it is the claim of some selected match and its slots validate |
| Decomposition.LlmClaimParts | services/claim_decomposition/src/civic_claim_decomp/decomposer.py:193-228 | When a provider's claim is accepted, and what of it is kept |
| Decomposition.VoteWordMeaning | services/claim_decomposition/src/civic_claim_decomp/decomposer.py:115-125 | Which words, Hebrew and English, mean which vote value; all others mean none |
| Decomposition.ReturnedClaimsAreValid | services/claim_decomposition/src/civic_claim_decomp/decomposer.py:161-179 | Every returned claim, from rules or provider, has a known type and fits its slot template |
| Decomposition.DecompositionIsDeterministic | services/claim_decomposition/src/civic_claim_decomp/decomposer.py:128-186 | Two results for the same statement, language and provider output are equal |
| Decomposition.VoteClaimAccepted | services/claim_decomposition/src/civic_claim_decomp/decomposer.py:193-228 | A provider's vote claim is accepted if and only if its stripped, lower-cased vote value is one of the known words and its other slots fit |
| Decomposition.CanonicalVoteAccepted | services/claim_decomposition/src/civic_claim_decomp/decomposer.py:115-125 | Of the three vote values of the claim schema, for and against are accepted and `abstain` is not |
| Decomposition.DecomposeDeclaration | services/claim_decomposition/src/civic_claim_decomp/declaration_decomposer.py:138-167 | Decomposes the utterance and folds the offline check of every returned claim into the class of the declaration |
| Decomposition.CheckOffline | services/claim_decomposition/src/civic_claim_decomp/declaration_decomposer.py:146-161 | One offline check per claim, in order, with no resolver status |
| Decomposition.OfflineCheckOfValidClaim | services/claim_decomposition/src/civic_claim_decomp/checkability.py:63-81 | A claim with valid slots fails offline if and only if its type needs a time and it has none; it never fails for its entities |
| Decomposition.DeclarationClass | services/claim_decomposition/src/civic_claim_decomp/declaration_decomposer.py:145-167 | The class is `not_checkable` if there are no claims, `insufficient_time_scope` if all need a time and lack it, else `checkable_formal_action`; the other two classes are unreachable |
| Rerank.RerankAll | services/retrieval/src/civic_retrieval/rerank.py:131-171 | The two loops and the sort give the specified ranking: each item scored against the documents of the whole set, ordered by overall score and stable key |
| Rerank.ExactAxes | services/retrieval/src/civic_retrieval/rerank.py:65-128 | What each axis contributes to the overall score, in ten-thousandths and from the evidence itself: tier, type or text length, stamp and scope, number of matching identifiers, number of documents |
| Rerank.ExactScore | services/retrieval/src/civic_retrieval/rerank.py:148-158 | The overall score of an item is the sum of these five numbers |
| Rerank.AxisWeights | services/retrieval/src/civic_retrieval/rerank.py:35-41 | Two ranked items differ overall by 30, 25, 20, 15 and 10 times their differences on the axes |
| Rerank.DocumentsMeaning | services/retrieval/src/civic_retrieval/rerank.py:139-146 | Which documents the cross-source axis counts |
| Rerank.RankedDescending | services/retrieval/src/civic_retrieval/rerank.py:170-177 | Ranked items descend, and among equal ones records come before text |
| Rerank.StableKeyIgnoresOrder | services/retrieval/src/civic_retrieval/rerank.py:174-177 | The stable key of a record does not depend on the order of its identifiers |
| Rerank.RankedMembers | services/retrieval/src/civic_retrieval/rerank.py:148-170 | The ranked evidence is a permutation of the input, each item scored against the documents of the whole set |
| Rerank.RankingIgnoresInputOrder | services/retrieval/src/civic_retrieval/rerank.py:170-177 | The ranking is sorted; permuted evidence gives the same scores, and the same ranking unless two scored items tie on score and stable key |
| Rerank.ScoresInRange | services/retrieval/src/civic_retrieval/rerank.py:65-128 | All axes lie between 0 and 1 |
| Rerank.RankingDominated | services/retrieval/src/civic_retrieval/rerank.py:123-170 | With more evidence each item keeps four axes, and its cross-source axis does not fall |
| Verdict.ComputeConfidence | services/verification/src/civic_verification/confidence.py:54-85 | The loop gives the specified confidence |
| VerdictProperties.ConfidenceWeights | services/verification/src/civic_verification/confidence.py:36-51 | That confidence is the vector of per-axis maxima, and its overall value their sum with weights 30, 25, 20, 15 and 10 |
| Verdict.BestIsUpperBound | services/verification/src/civic_verification/confidence.py:63-77 | The value of an axis bounds it for all evidence and is attained, or is 0 |
| VerdictProperties.ConfidenceCoversEvidence | services/verification/src/civic_verification/confidence.py:36-85 | The overall confidence is at least every ranked item's overall score and at most 1 |
| VerdictProperties.ConfidenceNeverFalls | services/verification/src/civic_verification/confidence.py:54-85 | Adding evidence never lowers the overall confidence |
| Verdict.DecideVerdict | services/verification/src/civic_verification/engine.py:85-143 | Status, reported confidence and review flag are those of the specification stated over agreeing and disagreeing hits; the trace holds one entry of the matching kind |
| Verdict.Compare | services/verification/src/civic_verification/engine.py:146-195 | The branch of every claim type gives the specified status |
| Verdict.CompareVote | services/verification/src/civic_verification/engine.py:323-350 | The set of recorded values decides as the agreement of the hits does: all agree, some agree, none agrees, no hits |
| Verdict.CompareElection | services/verification/src/civic_verification/engine.py:198-258 | The scan finds a hit that matches the expected seats and threshold if there is one, and otherwise contradicts |
| Verdict.CompareGovernmentDecision | services/verification/src/civic_verification/engine.py:261-316 | The scan skips hits of another decision; supported if and only if some hit is the expected one, or none was resolved |
| Verdict.CompareAttendance | services/verification/src/civic_verification/engine.py:176-185 | Supported if and only if some hit records presence; hits of absence alone contradict |
| VerdictProperties.VerdictIgnoresRetrievalOrder | services/verification/src/civic_verification/engine.py:110-143 | Status, confidence vector and review flag are the same for every order of the evidence |
| VerdictProperties.SupportIsStable | services/verification/src/civic_verification/engine.py:110-350 | A supported claim stays supported under any further evidence, except that a vote turns mixed exactly when a disagreeing record is then present |
| VerdictProperties.ContradictionIsStable | services/verification/src/civic_verification/engine.py:110-350 | Under any further evidence a contradicted claim of any type stays contradicted exactly if no hit agrees; otherwise a vote is mixed and any other claim supported |
| VerdictProperties.ContradictedVoteNeverSupported | services/verification/src/civic_verification/engine.py:323-350 | A contradicted vote turns mixed exactly when an agreeing record arrives, and never supported |
| VerdictProperties.HitGuarantee | services/retrieval/src/civic_retrieval/rerank.py:65-128 | One graph hit of the claim's type guarantees an overall confidence of 0.35 plus 0.3 times its tier score |
| VerdictProperties.LoneHitReview | services/verification/src/civic_verification/engine.py:112-143 | For a claim with one hit of its type, the exact overall confidence and the exact lines, per tier, at which the engine abstains and at which it asks for a review |
| VerdictProperties.Tier1HitDecides | services/verification/src/civic_verification/engine.py:112-143 | With a tier-1 hit the confidence is at least 0.65, the claim is compared, and review is needed if and only if the status is mixed |
| VerdictProperties.Tier2HitCompares | services/verification/src/civic_verification/engine.py:112-128 | With a tier-2 hit the confidence is at least 0.53 and the claim is compared |
| VerdictProperties.Tier3HitMayAbstain | services/verification/src/civic_verification/engine.py:69-121 | A concrete tier-3 hit, judged for a year of the normalizer, with confidence 0.44, on which the engine abstains: the tier-3 guarantee is sharp and not enough |
| VerdictProperties.ContradictionReview | services/verification/src/civic_verification/engine.py:130-143 | A contradicted verdict needs review if and only if no tier-1 graph hit of the claim's type exists |
| Pipeline.VerifyClaim | apps/api/src/api/routers/pipeline.py:217-272 | Resolves, scopes, classifies, retrieves, reranks, decides and bundles one claim: the bundle carries the specified outcome and the lexical count of the top five |
| Pipeline.VerifyStatement | apps/api/src/api/routers/pipeline.py:212-273 | Decomposes the statement in the given language without a provider and yields one genuine bundle per claim in order; the review tables then hold exactly the conflict tasks that are due |
| Pipeline.MaybeOpenConflictTask | services/review/src/civic_review/conflict.py:22-43 | A conflict task of priority 10 is opened if and only if the verdict is mixed and some evidence of any kind is of tier 1 |
| Pipeline.PipelineSlotsAreText | services/claim_decomposition/src/civic_claim_decomp/decomposer.py:78-112 | Every slot the pipeline reads is null or text, since it uses no provider |
| PipelineProperties.ResolveMeaning | apps/api/src/api/routers/pipeline.py:275-284 | What resolution the pipeline goes by with a resolver, without one, and after it raised; in the latter two cases each slot stands for its own identifier |
| PipelineProperties.BundleConfidence | apps/api/src/api/routers/pipeline.py:227-245 | The confidence reported is that of what the retrievers answered, ranked for the claim's type, time scope and identifiers |
| PipelineProperties.VoteVerdict | services/verification/src/civic_verification/engine.py:323-350 | A checkable vote claim with a record of tier 1 or 2 is supported iff every record of a vote has the vote of its slot, contradicted iff none has, else mixed |
| PipelineProperties.ElectionVerdict | services/verification/src/civic_verification/engine.py:198-258 | A checkable election claim with such a record is supported iff one record has both the seats and the threshold its slots ask for, else contradicted |
| PipelineProperties.DecisionVerdict | services/verification/src/civic_verification/engine.py:261-316 | A checkable decision claim with such a record is supported iff one record is about the resolved decision, or the one of its slot, or none was asked for; else contradicted |
| PipelineProperties.AttendanceVerdict | services/verification/src/civic_verification/engine.py:176-185 | A checkable attendance claim with such a record is supported iff one records presence, else contradicted |
| PipelineProperties.CorroborationVerdict | services/verification/src/civic_verification/engine.py:163-174 | From 0.45 on, a sponsorship, office or membership is supported iff one record of the type or one text came back |
| PipelineProperties.StatementVerdict | services/verification/src/civic_verification/engine.py:187-195 | From 0.45 on, a statement about an action is supported with two texts, mixed with one, undecided with none |
| PipelineProperties.NoRecordNoVerdict | services/verification/src/civic_verification/engine.py:176-205 | Without a record of its type a claim about a vote, result, decision or attendance is never decided |
| PipelineProperties.AbstentionMeaning | services/verification/src/civic_verification/engine.py:88-121 | When the engine abstains whatever the records say, and whether it asks for a review then |
| PipelineProperties.ReviewMeaning | services/verification/src/civic_verification/engine.py:130-143 | When it asks for a review otherwise |
| PipelineProperties.ConflictOpensTask | services/review/src/civic_review/conflict.py:26-43 | The conflict task: due for a mixed verdict with evidence of tier 1, open, of priority 10, nobody's |
| PipelineProperties.LexicalHitsMeaning | services/verification/src/civic_verification/provenance.py:69-78 | The lexical hits reported are those among the first five ranked items |
| Declarations.ContradictionIsNotAboutTime | services/verification/src/civic_verification/relation_rules.py:50-54 | No reason the engine writes for a contradiction contains `time_scope`, so the refinement never fires: every contradicted bundle gives `contradicted_by` |
| Declarations.RelationMeaning | services/verification/src/civic_verification/relation_rules.py:35-57 | For every bundle the pipeline can produce, which verdict, check and number of lexical hits each relation stands for, in both directions |
| Declarations.RelationOfClaim | services/verification/src/civic_verification/relation_rules.py:35-57 | The same for a validated claim in terms of its input: ambiguous iff a required slot is unresolved, time mismatch iff none is and the needed time is missing, not checkable iff the evidence is insufficient |
| Declarations.WorstRelation | services/verification/src/civic_verification/relation_rules.py:72-88 | The loop returns a present relation that none of the others outranks, or the default for no relations |
| Declarations.WorstSpelledOut | services/verification/src/civic_verification/relation_rules.py:24-32 | The outcome relation by relation: each when it is present and no worse one is |
| Declarations.TriggerOpensTask | services/verification/src/civic_verification/declaration_verifier.py:128-144 | The declaration task: for which five relations it is opened, open, of priority 1, nobody's |
| Declarations.VerifyDeclaration | services/verification/src/civic_verification/declaration_verifier.py:85-153 | Runs the pipeline on the utterance in the language of the call, pairs bundles and claims, gives one edge per pair in order and their worst relation; after the conflict tasks exactly one declaration task of priority 1 is opened if the relation is a trigger and a connection is given |
| Declarations.OverallRelation | services/verification/src/civic_verification/declaration_verifier.py:98-127 | The overall relation is `contradicted_by` if and only if some paired claim is contradicted, `supported_by` if and only if there is a pair and all are supported |
| Declarations.TriggerOfWorst | services/verification/src/civic_verification/relation_rules.py:24-32 | Which sets of relations trigger a review through their worst member |
| Declarations.ReviewTrigger | services/verification/src/civic_verification/declaration_verifier.py:31-39 | A review is triggered if and only if some claim is contradicted or lacks entities or time, or some claim is mixed and none is unanswered |
| Declarations.PairingWithPipeline | services/verification/src/civic_verification/declaration_verifier.py:93-98 | In the language of the ingestion the pipeline finds the same claims, or, if the declaration's claims came from the provider, none, and then nothing is paired |
| Declarations.AlignedIffSameLanguage | services/verification/src/civic_verification/declaration_verifier.py:93-98 | Whatever the patterns, the statement and the provider, every paired bundle belongs to its claim, if and only if ingestion and verification use the same language |
| Declarations.LanguagesMispair | apps/api/src/api/routers/declarations.py:91-108 | A concrete statement in two languages whose claim about one government decision is paired, in either direction, with the verdict on another |
| Declarations.CheckedInOneLanguage | services/verification/src/civic_verification/declaration_verifier.py:93-98 | Verified in its own language, a declaration is judged by all its claims, or by none if they came from the provider |
| Declarations.DeclarationReview | services/verification/src/civic_verification/declaration_verifier.py:93-144 | For any two languages: a review is due if and only if some checked claim is contradicted or lacks an entity or a needed time, or some checked claim is mixed and each has enough evidence; supported if and only if there are checked claims and all are; without any, not checkable. The checked claims are the declaration's own when the languages agree |
| Review.ReviewRepository.OpenReviewTask | services/review/src/civic_review/queue.py:64-84 | Adds one open task of an accepted kind, or is an error and changes nothing |
| Review.ReviewRepository.ResolveTask | services/review/src/civic_review/queue.py:128-182 | Unknown decision or task: nothing changes. Terminal task: one audit row. Otherwise the decided status, the assignee and one audit row, enriched when a verdict is rejected |
| Review.ReviewRepository.AppendSpanConfirmation | services/review/src/civic_review/evidence.py:15-51 | Adds one annotate row without touching the task, or nothing for an empty list |
| Review.LogExplainsTasks | services/review/src/civic_review/queue.py:29-37 | After every run mixing openings, decisions and confirmations, replaying a task's audit rows from `open` gives its status and assignee; `claimed` is unreachable; the log holds exactly one override if a rejection closed a verdict task, else none |
| Review.DecisionRecorded | services/review/src/civic_review/queue.py:142-195 | In every run, what each of the five words does: the action of its audit row, who and what the row names, the override exactly when it rejects an unfinished verdict, and the status it leaves; finished tasks and all other tasks stay as they are |
| Review.OtherWordsIgnored | services/review/src/civic_review/queue.py:142-145 | Any other word changes nothing |
| Review.OverrideMeansRejected | services/review/src/civic_review/queue.py:184-195 | The log of a task holds an override if and only if some call with the word `reject` reached it while it was an unfinished verdict task |
| Review.OpenedTask | services/review/src/civic_review/queue.py:73-84 | A new task of one of the four kinds is open and nobody's; no other kind opens anything |
| Review.ConfirmedSpans | services/review/src/civic_review/evidence.py:24-51 | A confirmation leaves every task as it is and adds an annotation that names the spans |
| Review.ConsistentStep | services/review/src/civic_review/queue.py:150-182 | Every call keeps that agreement of tasks and log |
| Review.LogGrowsByOne | services/review/src/civic_review/queue.py:197-220 | A refused call changes nothing; every other call but an opening appends exactly one row in the caller's name for an existing task |
| Review.TerminalTasksFrozen | services/review/src/civic_review/queue.py:164-167 | A resolved or escalated row never changes under any continuation, while the log only grows |
| Review.WorklistIsMostUrgent | services/review/src/civic_review/queue.py:113-126 | The work list is in order, holds unfinished tasks only and each once, and omits one only when it is full of tasks that precede it |
| Review.WorklistSpelledOut | services/review/src/civic_review/queue.py:113-126 | Higher priority first, the older task first among equals, finished tasks never |
| Review.ReviewRepository.ListOpenTasks | services/review/src/civic_review/queue.py:113-126 | The call returns such a list |
| ArchiveStore.ArchiveSafety | services/archival/src/civic_archival/archiver.py:102-165 | Under interleaved archivers and crashes between any two steps: one row at most per digest, every row's URI names its digest and has an object, and every object hashes to the digest in its key, also after rewrites; no collision-freeness is assumed |
| ArchiveStore.RecordIsStable | services/archival/src/civic_archival/archiver.py:112-124 | Once a digest has a row, every later look-up in the run finds that same row |
| ArchiveStore.RewritesKeepTheDigest | packages/clients/src/civic_clients/minio_client.py:84-97 | No object is ever lost and no rewrite changes the digest of what a key holds, so the collision that the conventions tell the system to reject cannot arise |
| ArchiveStore.StepAccounting | services/archival/src/civic_archival/archiver.py:126-151 | Each step balances: a write enters the in-flight set, and leaves it by a new row or as abandoned |
| ArchiveStore.PutAccounting | services/archival/src/civic_archival/archiver.py:126-151 | The number of writes of a digest equals those in flight plus its row plus those abandoned |
| ArchiveStore.WrittenMeansStored | services/archival/src/civic_archival/archiver.py:126-151 | In every run a digest has been written if and only if the store holds an object under a key that names it |
| ArchiveStore.FirstWrite | services/archival/src/civic_archival/archiver.py:3-7 | A write keeps the documented at-most-once promise if and only if the store then holds no object under a key that names its digest; and the store holds one exactly when the row exists, or another archiver is between write and insert, or one was lost there |
| ArchiveStore.CrashCausesSecondWrite | services/archival/src/civic_archival/archiver.py:3-7 | A run with one crash in which the same content is written twice: the documented promise fails |
| ArchiveStore.TargetNamesDigest | packages/clients/src/civic_clients/minio_client.py:76-87 | The key that is written is the built URI itself, and it names the digest of the content |
| ArchiveStore.ArchiveLayoutOk | packages/clients/src/civic_clients/minio_client.py:64-97 | For every hash, every lower-casing and every configured bucket the real layout satisfies what the safety results assume |
| ArchiveStore.Archive.ArchivePayload | services/archival/src/civic_archival/archiver.py:72-168 | One undisturbed call: which error for which input; for known bytes the first call's row, with nothing written; otherwise exactly one object and one row with all fields of the request |
| ArchiveStore.GuessIsNormalized | services/archival/src/civic_archival/archiver.py:60-69 | The extension guessed from any Content-Type header is accepted unchanged, as the docstring promises |
| ArchiveStore.ParametersIgnored | services/archival/src/civic_archival/archiver.py:68-69 | The parameters of a Content-Type header play no part |
| ArchiveStore.TypeTable | services/archival/src/civic_archival/archiver.py:49-69 | Which content types get which extension |
| ArchiveStore.WhenStorable | services/archival/src/civic_archival/archiver.py:103-138 | A well-formed request gets a URI and passes the bucket test if and only if its time is aware, the configured bucket is well formed, and an explicit extension normalizes; a guessed one never prevents it |
| ArchiveUri.MatchUriMeaning | packages/clients/src/civic_clients/archive.py:60-65 | Splitting at slashes finds exactly the groups the pattern describes, and they are unique |
| ArchiveUri.ParsePrinted | packages/clients/src/civic_clients/archive.py:128-162 | Every canonical coordinate is parsed back from its printed URI, and from that URI followed by a line feed |
| ArchiveUri.ParsedIsCanonical | packages/clients/src/civic_clients/archive.py:43-57 | The parser returns canonical coordinates only |
| ArchiveUri.PrintParsed | packages/clients/src/civic_clients/archive.py:128-134 | A URI that parses is the print of its coordinate if and only if it is ASCII and does not end in a line feed |
| ArchiveUri.RoundTripFails | packages/clients/src/civic_clients/archive.py:128-134 | A concrete URI that parses and is not the print of its coordinate, against the documented round trip |
| ArchiveUri.ForeignDigitAccepted | packages/clients/src/civic_clients/archive.py:63-63 | Writing the last digit of the day in another script gives a second URI with the same coordinate |
| ArchiveUri.DistinctCoordsDistinctUris | packages/clients/src/civic_clients/archive.py:121-125 | Distinct coordinates have distinct URIs |
| ArchiveUri.BuildParses | packages/clients/src/civic_clients/archive.py:88-125 | A built URI parses back to bucket, family, UTC date, hash and normalized extension if and only if the configured bucket has the form of a bucket name; otherwise it does not parse at all |
| ArchiveUri.UriShape | packages/clients/src/civic_clients/archive.py:121-125 | A printed URI letter by letter |
| ArchiveUri.LeadingDotIgnored | packages/clients/src/civic_clients/archive.py:77-85 | An extension may come with a leading dot |
| ArchiveUri.UpperCaseBucketFails | packages/clients/src/civic_clients/archive.py:128-134 | A concrete bucket name with which every built URI is rejected, against the documented promise |
| ArchiveUri.ExtensionNormalizedOnce | packages/clients/src/civic_clients/archive.py:77-85 | Normalizing an extension twice gives what normalizing it once gives |
| Calendar.TextOrderIsTimeOrder | services/retrieval/src/civic_retrieval/rerank.py:82-106 | Valid timestamps of one suffix compare as strings exactly as their instants compare, over all years 1 to 9999 (RFC 3339, section 5.1) |
| Calendar.PrintOrder | services/retrieval/src/civic_retrieval/rerank.py:94-105 | Any two printed timestamps with any suffixes: the fields decide, and on equal fields the suffixes do |
| Calendar.EarlierIsBefore | services/normalization/src/civic_temporal/normalizer.py:63-68 | Field order of dates is the order of their day numbers, leap years included (RFC 3339, Appendix C) |
| Calendar.StampShape | services/normalization/src/civic_temporal/normalizer.py:55-81 | A printed timestamp letter by letter |
| Calendar.DaysBeforeYearClosed | services/normalization/src/civic_temporal/normalizer.py:63-68 | The days before a year in closed form, with a leap day every fourth year but for three in four hundred (RFC 3339, Appendix C) |
| Calendar.MonthTable | services/normalization/src/civic_temporal/normalizer.py:63-68 | The days of each month (RFC 3339, section 5.7) |
| Temporal.MonthBoundsEnd | services/normalization/src/civic_temporal/normalizer.py:63-73 | The subtraction of one day gives the last day of the month in every year; only December 9999 has no bounds |
| Temporal.InsideMeansBelongs | services/retrieval/src/civic_retrieval/rerank.py:90-98 | A stamp in the normalizer's format is inside a day, month or year scope by string comparison if and only if it belongs to that day, month or year |
| Temporal.ZuluLosesTheLastSecond | services/retrieval/src/civic_retrieval/rerank.py:94-97 | A stamp ending in `Z` is inside its day if and only if it is not the last second: `Z` and `+00:00` do not compare equal |
| Temporal.BareDateMissesItsDay | services/retrieval/src/civic_retrieval/rerank.py:94-97 | Evidence stamped with a bare date is never inside the scope of that very date |
| Temporal.MonthsTileYear | services/normalization/src/civic_temporal/normalizer.py:55-73 | The twelve month scopes start and end with the year scope, end on their right last days, and follow each other with one second between |
| Temporal.EnclosureNeverLowersScore | services/retrieval/src/civic_retrieval/rerank.py:82-106 | A scope that encloses another as strings never scores any evidence lower |
| Temporal.WideningNeverLowersScore | services/retrieval/src/civic_retrieval/rerank.py:82-106 | Widening a valid day to its month to its year never lowers the temporal score, whatever the format of the evidence's timestamp |
| Temporal.KnessetTermsContiguous | services/normalization/src/civic_temporal/knesset_terms.py:21-47 | The table is numbered from 1, each term ends where the next begins, starts increase, only the last is open |
| Temporal.CurrentTerm | services/normalization/src/civic_temporal/normalizer.py:135-141 | The scan returns the first term that covers the reference date |
| Temporal.CurrentTermMeaning | services/normalization/src/civic_temporal/normalizer.py:135-141 | On a contiguous table it fails only before the first term, and on a change-over day finds the outgoing one |
| Temporal.PreviousTermIsOver | services/normalization/src/civic_temporal/normalizer.py:134-145 | `last term` yields a term if and only if the second term began before the reference date, and that term had then ended |
| Temporal.PreviousTermIsLatest | services/normalization/src/civic_temporal/normalizer.py:134-145 | That term is the latest that had ended before the reference date |
| Temporal.Normalize | services/normalization/src/civic_temporal/normalizer.py:93-151 | The ladder gives the scope of the first pattern, in the specified order, that yields one |
| Temporal.PhraseMeaning | services/normalization/src/civic_temporal/normalizer.py:105-151 | Which instants lie in the scope of a phrase, pattern by pattern in the order in which they count: the day, the month, the term with its last day, the year before the reference date, the year |
| Temporal.ScopesAreWellOrdered | services/normalization/src/civic_temporal/normalizer.py:93-151 | Whatever the phrase, the scope is unknown without bounds, or starts before it ends, or is open |
| Resolver.Collect | services/entity_resolution/src/civic_entity_resolution/resolver.py:120-191 | The candidates are those of the first rung that yields any |
| Resolver.RungGuards | services/entity_resolution/src/civic_entity_resolution/resolver.py:120-191 | From which rung the candidates of a result come: for each of the six, if and only if its look-up can be made and answers, exactly one Hebrew node for the exact rung, and no earlier rung does |
| Resolver.RungContents | services/entity_resolution/src/civic_entity_resolution/resolver.py:122-191 | What the candidates of each rung are, with their scores |
| Resolver.SharedNameIsNotExact | services/entity_resolution/src/civic_entity_resolution/resolver.py:257-270 | A Hebrew name that no node or several nodes carry gives no exact match |
| Resolver.NamesakesStayAmbiguous | services/entity_resolution/src/civic_entity_resolution/resolver.py:189-235 | Two entities that both match fully stay ambiguous when there is only the graph to go by |
| Resolver.TiebreakerMeaning | services/entity_resolution/src/civic_entity_resolution/resolver.py:193-235 | A tiebreaker is heard only about an ambiguous result and only if it picks a candidate; one entity alone is always resolved |
| Resolver.CutMeaning | services/entity_resolution/src/civic_entity_resolution/resolver.py:367-368 | The cut keeps so many of the candidates, in descending order, and leaves out only what scores no more |
| Resolver.LookupFuzzy | services/entity_resolution/src/civic_entity_resolution/resolver.py:323-368 | Of the first 500 nodes, keeps the identified ones whose best similarity is 60 or more, and returns the best five |
| Resolver.Resolve | services/entity_resolution/src/civic_entity_resolution/resolver.py:99-235 | The decision over the collected candidates; ambiguous candidates are appended to the review table exactly when asked for and connected |
| Resolver.CandidateTable.Write | services/entity_resolution/src/civic_entity_resolution/resolver.py:371-405 | Appends all candidates in order |
| Resolver.OneRungAndNoInvention | services/entity_resolution/src/civic_entity_resolution/resolver.py:120-235 | All candidates of a result come from one rung, and a resolved entity is always one of them, even with a tiebreaker |
| Resolver.AliasesAreNotRanked | services/entity_resolution/src/civic_entity_resolution/resolver.py:196-215 | Different entities behind one alias stay ambiguous without a tiebreaker, whatever their confidences |
| Resolver.MarginMeansDominance | services/entity_resolution/src/civic_entity_resolution/resolver.py:207-210 | Comparing the two best of the sorted list is the same as comparing the best with every other entity |
| Resolver.FuzzyDecision | services/entity_resolution/src/civic_entity_resolution/resolver.py:196-215 | With distinct ids, no tiebreaker and any cut to two or more: none is unresolved, one resolves at any score, several resolve if and only if one reaches 88 and beats every other by 7 |
| Resolver.ScanOrderAndCutDoNotMatter | services/entity_resolution/src/civic_entity_resolution/resolver.py:367-368 | Status and entity are the same for every scan order and every cut to at least two, so the cut to five loses nothing |
| Resolver.ResolutionIgnoresScanOrder | services/entity_resolution/src/civic_entity_resolution/resolver.py:189-235 | The whole resolution is independent of the order in which the graph returns up to 500 nodes with distinct ids |
| Resolver.ScanOrderMattersBeyondLimit | services/entity_resolution/src/civic_entity_resolution/resolver.py:315-320 | That independence holds for labels of n nodes if and only if n is at most 500 |
| Resolver.LimitLosesMatch | services/entity_resolution/src/civic_entity_resolution/resolver.py:302-320 | For every larger label, two scans (with concrete nodes) of one set of nodes of which one resolves a perfect match and the other misses it |
| Adapter.AdapterRun.Run | services/ingestion/_common/src/civic_ingest/adapter.py:66-107 | For every page chain, trace, counters and archive URIs are those of its first min(length, max(1, limit)) pages |
| Adapter.ChainMeaning | services/ingestion/_common/src/civic_ingest/adapter.py:90-96 | A chain in terms of the pages: each follows from the link of the one before, joined to its address if it has no scheme, up to a page without a link or to the limit |
| Adapter.VisitedMeaning | services/ingestion/_common/src/civic_ingest/adapter.py:88-89 | How many pages of a chain a limit lets through: at least one |
| Adapter.EveryVisitFetches | services/ingestion/_common/src/civic_ingest/adapter.py:69-71 | A run fetches every visited page once and in order |
| Adapter.EveryVisitArchives | services/ingestion/_common/src/civic_ingest/adapter.py:73-74 | It archives exactly those pages, in order, if archival is enabled, and nothing otherwise |
| Adapter.AdapterRun.UpsertRows | services/ingestion/_common/src/civic_ingest/adapter.py:80-84 | Each row's records are upserted in order and both counters are exact |
| Adapter.AdapterRun.FetchAndArchive | services/ingestion/_common/src/civic_ingest/adapter.py:70-78 | A page is fetched and then archived, and its URI is recorded if it has one |
| Adapter.AdapterRun.VisitPage | services/ingestion/_common/src/civic_ingest/adapter.py:70-87 | One turn of the loop extends the recorded run by one page |
| Adapter.RecordedUris | services/ingestion/_common/src/civic_ingest/adapter.py:73-78 | The URIs a run records are the archive's answers for the visited pages, in order and without the empty ones |
| Adapter.UpsertsAreFlattenedPages | services/ingestion/_common/src/civic_ingest/adapter.py:80-84 | The upserts of a run are the in-order flattening of the normalized rows of the visited pages |
| Adapter.VisitOf | services/ingestion/_common/src/civic_ingest/adapter.py:69-96 | Every effect of a run belongs to one visit of the chain |
| Adapter.ArchivedBeforeUpserted | services/ingestion/_common/src/civic_ingest/adapter.py:73-84 | With archival enabled, every upsert of a visit is of that visit's page and comes after the archiving in the same visit, also when a URL is visited twice |
| Adapter.LimitCutsTheRun | services/ingestion/_common/src/civic_ingest/adapter.py:88-89 | What a run does under a page limit is a prefix of what it does under a larger limit or none |
| Elections.PassedMeansShare | services/ingestion/elections/src/civic_ingest_elections/normalize.py:51-52 | A list passes if and only if it holds at least 3.25 % of the valid votes: the ceiling loses nothing |
| Elections.PageResults | services/ingestion/elections/src/civic_ingest_elections/normalize.py:68-71 | One result for each row with ballot letters, in order, that passes iff the row holds 3.25 % of the valid votes |
| Elections.ResultsAreRows | services/ingestion/elections/src/civic_ingest_elections/normalize.py:27-71 | The same with the letters and votes of each result |
| Elections.PassedNeedVotes | services/ingestion/elections/src/civic_ingest_elections/normalize.py:51-71 | The lists that pass together hold at least their number times the threshold share |
| Elections.AtMostThirtyPass | services/ingestion/elections/src/civic_ingest_elections/normalize.py:68-71 | If the lists hold no more than the positive total, at most 30 pass |

## Left out

- WorkerProtocol.RunOnce: the branches for missing imports or an unreachable database, the status dictionary and the log are not modelled; a commit whose outcome the worker cannot know is not distinguished from a crash before or after it.
- WorkerProtocol.QueueSafety: jobs start as the queue creates them; rows edited by hand or by another program are not covered.
- The endless outer loop of the worker with its signal flag and liveness file.
- JobQueue.JobTable.Enqueue: payloads, ingest run ids and `updated_at` are not kept.
- Decomposition.Decompose: the validation error messages, claim ids and rule descriptions are not kept, and the patterns are arbitrary functions.
- Decomposition.DecomposeDeclaration: the claim family, the utterance time and the copied fields of the declaration.
- Rerank.RerankAll: binary floating point; see the assumptions.
- Verdict.DecideVerdict: of a trace entry only its kind and its `reason` key are kept, not counts and observed values.
- Declarations.VerifyDeclaration: the confidence band, object id and evidence spans of an edge, and the swallowing of errors raised when the task is opened (see the assumption on its kind); the payload is an arbitrary function of edges and relation.
- Pipeline.VerifyClaim: what the resolver and the two retrievers answer is arbitrary; the statuses a live resolver derives from the ladder and its fallback query are not tied to Resolver.
- Pipeline.MaybeOpenConflictTask: the payload's text.
- Review.ReviewRepository.ResolveTask: time stamps and action ids. The reviewer id is a string by its type, so the COALESCE around it never falls back.
- `get_task` and the relinking of entities.
- ArchiveStore.Archive.ArchivePayload: the random object id, and an outer transaction of the caller that is rolled back later.
- ArchiveStore.ArchiveSafety: visibility between transactions is immediate; a rolled-back insert is a crash after the write.
- Temporal.Normalize: the patterns themselves; what they find in a phrase is an input.
- Resolver.LookupFuzzy: the similarity of two strings is an input, the weight 0.92 is exact, and the match reason is not kept.
- Resolver.Resolve: the unknown-kind error, and the look-ups that the rungs make.
- Adapter.AdapterRun.Run: exceptions raised by callbacks, and the statistics handed to the ingest run. Chains of links that never end are covered only under a page limit.
- Elections.PassedMeansShare: the product of the total with a binary float, ids, parties and the vote share string.
- HTTP, settings, migrations, database drivers, query templates, data models of the ontology, and the parse, normalize and upsert modules of the single adapters: plumbing or field copying.
