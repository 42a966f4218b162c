# Verified model of the claims-intake backend

This project models the rules by which the backend turns a first notice of loss into a
claim, and proves what those rules promise. It covers four parts of the system:

- **Claims and references.** `ClaimCreation` is the claim-creation service and the locked
  counter as classes; `ClaimProtocol` is the same work as database statements of any number
  of concurrent transactions (creates, intakes, revisions) under READ COMMITTED with row
  locks, commits and rollbacks, and with a session that keeps the notice as it first read
  it. `ClaimSafety` and `ClaimTheorems` prove an inductive invariant and what it says about
  every run; `ClaimRefinement` connects the two views. `ClaimProgress` proves that creates
  and intakes never deadlock, nor with revisions as far as those lock the notice alone;
  `RevisionLocks` has the other rows that pipeline runs and officers' decisions lock, and
  says exactly which of them can deadlock; `SharedLocks` adds the locks that foreign keys
  take and shows that they change nothing. `References` is the printed reference.
- **The notice under review.** `FieldStore`, `PolicyBinding`, `DuplicateReview` and
  `ExceptionReview` are the four stored lists that pipeline runs rewrite while officers edit
  them, as classes over maps; `NoticePipeline` puts all four and the status of `Lifecycle`
  under the pipeline and every officer action on them. `FieldTheorems` and
  `NoticeTheorems` say what no sequence of actions can undo, each action taken as a whole;
  `Sessions` takes a run apart into what its session loaded, what it finds once it holds the
  notice's lock, and what its flush writes. `InterleavedRuns` says exactly which of the
  officers' actions survive such a run, `OverlappingRuns` which of two overlapping runs'
  results stand, and `ReopenedExample` writes one case out.
- **Similarity and scoring.** `Lcs`, `Matching`, `Ranking`, `PolicyMatch`, `PolicyRanking`,
  `Duplicates` and `Fraud`, in exact real arithmetic.
- **Builders and parsers.** `PdfStrings`, `Money`, `Corpus`, and the knowledge graph:
  `ClaimGraph` says from the records alone which entities and relationships there are,
  `GraphBuilder` is the builder that produces them, `GraphTheorems` what follows.

A class stands where the source updates an object or the rows of a session in place; its
methods are proved against specification functions, or against relations on the old and the
new contents, and the theorems are about those. Runs are sequences of states joined by an
enabled step or by an action's relation, with no bound on their length.

## Where the code departs from its documentation or its purpose

The model follows the code. Each point names the lemmas that show it.

- Losing an officer's correction is called the one thing that must not happen
  (app/services/fnol/extraction.py:196-199). A run works on the notice as its session loaded
  it, before any lock, and writes back the columns it changed. A correction committed in
  between is overwritten unless the reading repeats what was loaded or what the officer
  wrote (`InterleavedRuns.CorrectionSurvivesExactlyWhen`,
  `InterleavedRuns.OverwrittenExample`), and the machine's value is then protected as if it
  were the officer's (`InterleavedRuns.LostCorrectionIsProtected`). In the same way a
  selected policy, the run that goes with the selection included
  (`InterleavedRuns.SelectionSurvivesExactlyWhen`, `InterleavedRuns.LostSelectionExample`),
  the status of a notice rejected, cancelled or converted
  (`InterleavedRuns.TerminalStaysExactlyWhen`), and decisions on exceptions and candidates
  (`InterleavedRuns.DecisionSurvivesExactlyWhen`,
  `InterleavedRuns.ResolutionSurvivesExactlyWhen`, `InterleavedRuns.LostResolutionExample`)
  can be undone; a lost decision comes back as an open question
  (`InterleavedRuns.LostDecisionReopens`).
- Deciding the last candidate closes the question about duplicates, and as long as actions
  do not overlap it stays closed (`NoticeTheorems.DecidedDuplicatesStayQuiet`). A run that
  had loaded the notice before opens it again exactly when it scores a record its session
  does not hold as decided, the one just decided included
  (`OverlappingRuns.ClosedQuestionReopensExactlyWhen`, `ReopenedExample.AskedInVainExample`).
- A recomputed status is meant to say whether anything blocks a claim. A run writes it only
  if it differs from the one its session loaded, so a notice can read ready beside an open
  blocker: exactly when the run arrives at the loaded status while others moved the notice to
  ready or away from it (`OverlappingRuns.ReadyExactlyWhenNothingBlocks`).
- Of two overlapping runs on the same inputs the second changes nothing
  (`OverlappingRuns.TwinsAreOneRun`). But a second run normally reuses the reading the first
  one stored (app/services/fnol/pipeline.py:167-175), while it works on the values it had
  loaded: a new notice processed twice at once keeps its values and loses its candidate
  policies (`OverlappingRuns.ReusedReadingForgets`, `OverlappingRuns.SecondRunIsNotReady`).
  Two runs on different inputs can leave two candidates in one place
  (`OverlappingRuns.RankIsItsPlaceExactlyWhen`, `OverlappingRuns.RanksCollide`).
- A notice is meant to have one chosen policy. Two officers who select different ones at once
  can leave two rows marked, or a chosen row that is not the bound policy's
  (`InterleavedRuns.SecondSelectionExactlyWhen`).
- A decided exception is meant to refuse a second decision
  (app/services/fnol/service.py:422-423). One made on a session that had loaded it open
  replaces the first, and leaves the first officer's note beside the second's name unless it
  brings its own (`InterleavedRuns.SecondDecisionReplaces`).
- Officers' decisions and pipeline runs can deadlock. A decision on an exception or a
  duplicate locks the decided row and then, if the status moves with it, the notice; a run
  locks the notice and then the rows it changes. Deciding is safe exactly when it marks a
  duplicate, or the notice already has the status that what stays open implies
  (`RevisionLocks.ExceptionDecisionSafeExactlyWhen`,
  `RevisionLocks.DuplicateDecisionSafeExactlyWhen`); clearing the last exception in the way
  of a claim always moves it (`RevisionLocks.ClearingTheLastBlockerCanDeadlock`). In a
  deadlock the database aborts one of the two.
- Claim creation locks the notice but keeps the columns its session read before the lock.
  A revision that commits in between leaves a claim made of the notice as it was
  (`ClaimRefinement.StaleClaimIsReachable`); without one the claim is current
  (`ClaimTheorems.ClaimIsCurrent`).
- `upsert_exception` (app/repositories/fnol.py:567-570) documents that a resolved exception
  reopens when its cause is worse. It never reopens (`NoticeTheorems.ExceptionDecisionStands`).
- An officer's value that equals the current one writes nothing and protects nothing
  (`FieldTheorems.EntryOutranksReadings`), and the switches have no protection at all
  (`FieldTheorems.TogglesAreNotProtected`).
- A confirmed policy is meant to be the authority on the policy number
  (app/services/fnol/matching.py:127-131), but the next reading may replace that number
  unless an officer had corrected it before (`FieldTheorems.SelectionOutranksReadings`).
- When a path has no stored row, its first correction records the officer's own text as the
  original value (`FieldTheorems.FirstCorrectionKeepsReading`).
- The lifecycle calls three statuses terminal, but a run that fails, a marked duplicate and a
  claim can each move a notice out of one (`NoticeTheorems.HowTerminalIsLeft`).
- Comparing two records is not symmetric when just one of the two external references can be
  compared. A reference that contradicts the other record lowers the score of the record
  that has it (`Duplicates.ContradictingReferenceLowers`, `Duplicates.ContradictionExample`);
  one that quotes the other record's own number raises it (`Duplicates.QuotedNumberRaises`,
  `Duplicates.QuotationExample`); `Duplicates.ScoresAgreeExactlyWhen` is the exact condition.
- The unambiguous-match promise needs the candidate threshold not to exceed the high one, and
  at least two candidates shown (`PolicyRanking.UnambiguousExactlyWhen`,
  `PolicyRanking.StricterFilterHidesRival`).
- A possible duplicate is flagged as an issue in the graph only while its resolution reads
  `open` (`GraphTheorems.RelatedIssueExactlyWhen`), a word the stored resolutions never use
  (`GraphTheorems.StoredDuplicatesAreNeverIssues`).
- Of the literal strings that section 7.3.4.2 of ISO 32000-1 allows, those on a page are found
  whole and read as it has them exactly when they hold no bare parenthesis and no carriage
  return and escape no octal digit and no end of line (`PdfStrings.StandardExactlyWhen`):
  `(a(b)c)` comes through as `b` (`PdfStrings.NestedExample`), an octal escape as its digits
  (`PdfStrings.OctalExample`).

## Model

| member | source | states |
|---|---|---|
| References.RoundTrip | app/domain/references.py:20-36 | parsing gives back what was formatted for exactly the references with 2 to 6 capitals, a year below 10000 and a sequence below 10^8 |
| References.ReformatIsStable | app/domain/references.py:20-36 | whatever spelling a reference was parsed from, printing and parsing it again gives the same reference |
| References.ParsedIsRepresentable | app/domain/references.py:27-36 | the parser never returns a reference the printer cannot carry |
| References.TextIsInjective | app/domain/references.py:23-24 | two references print alike only when equal, with no bound on year or sequence |
| Digits.ValueZeroPad | app/domain/references.py:23-24 | zero padding never changes the number written |
| Digits.DecimalLength | app/domain/references.py:20-24 | a number has at most k digits exactly when it is below 10^k |
| Lifecycle.ReadyExactlyWhenUnblocked | app/domain/lifecycle.py:133-155 | the status table and the blocking table agree: a working notice derives to ready exactly when nothing blocking is open |
| Lifecycle.DeriveIsIdempotent | app/domain/lifecycle.py:178-204 | deriving the status twice changes nothing the first time did not |
| Lifecycle.DerivedMoveIsLegal | app/domain/lifecycle.py:27-204 | exactly when the derived status is one an explicit transition would have accepted |
| ClaimSafety.StepKeepsInv | app/services/fnol/claims.py:151-282 | every statement of every transaction keeps links, numbers, audit counts, delivery keys and lock exclusion in order |
| ClaimTheorems.RunKeepsInv | app/services/fnol/claims.py:151-282 | the invariant holds in every state of every interleaving |
| ClaimTheorems.OneClaimPerNotice | app/services/fnol/claims.py:155-213 | at most one committed claim per notice, and the two links are mutual inverses |
| ClaimTheorems.OneCreationEventPerClaim | app/services/fnol/claims.py:216-228 | the trail holds one creation event for each claim and none for anything else |
| ClaimTheorems.ConversionIsClean | app/services/fnol/claims.py:177-214 | a claim becomes visible only while its notice, as committed at that moment, has no claim and nothing blocking open; its facts are complete and are those the session first read; of the notice only the link and the status change |
| ClaimTheorems.SeenWasCommitted | app/api/v1/routes/fnol.py:743-746 | what the session read is the notice as committed when the create began, whatever happened since |
| ClaimTheorems.ClaimIsCurrent | app/repositories/fnol.py:72-80 | without a revision committed since that first read, the claim carries the facts of the notice as committed with it |
| ClaimTheorems.ClaimsAreForever | app/services/fnol/claims.py:151-282 | a committed claim is never changed or removed |
| ClaimTheorems.CreatesAgree | app/services/fnol/claims.py:160-168 | all finished creates on a notice that report a claim report the same one, and at most one reports having made it |
| ClaimTheorems.RetriesReturnTheClaim | app/services/fnol/claims.py:155-168 | a create begun after the conversion returns that claim, even after a revision moved the notice's status elsewhere |
| ClaimTheorems.NumbersAreDense | app/repositories/reference.py:27-57 | the committed references of a counter carry exactly the numbers 1 to its last value, once each, through any rollbacks |
| ClaimTheorems.PrintedReferencesAreDistinct | app/models/claim.py:40 | no two rows share a printed reference, within a table or across the two |
| ClaimTheorems.ClaimConstraintsNeverFire | app/models/claim.py:40-46 | the unique constraints on claims never reject a create that reached its insert |
| ClaimTheorems.NoticeConstraintsFireOnRedelivery | app/models/fnol.py:61-79 | the constraints on notices reject an intake exactly when it is a redelivery |
| ClaimTheorems.OneNoticePerDelivery | app/services/fnol/ingestion.py:138-163 | one committed notice per idempotency key and per message id |
| ClaimProgress.ClosestCanStep | app/repositories/reference.py:40-55 | among creates, intakes and revisions that lock only the notice, the transaction nearest its commit waits for nobody |
| ClaimProgress.NeverDeadlocked | app/services/fnol/claims.py:155-184 | among those, in every reachable state with unfinished work some transaction can take its next statement |
| ClaimProgress.ProgressReducesWork | app/services/fnol/claims.py:151-282 | every such statement brings the whole system nearer its end |
| ClaimProgress.Drains | app/services/fnol/claims.py:151-282 | among those, from every reachable state all transactions can be run to their end without aborting one |
| RevisionLocks.DeadlockFreeExactlyWhen | app/services/fnol/pipeline.py:99-108 | beside creates, intakes, runs and decisions that leave the status, a set of edits never deadlocks exactly when each locks rows in a run's order and either locks the notice first or no two rows of one kind |
| RevisionLocks.SomeoneGoesOn | app/services/fnol/pipeline.py:99-108 | and then, while anything is in flight, some transaction can take its next lock or commit |
| RevisionLocks.ExceptionDecisionSafeExactlyWhen | app/services/fnol/service.py:410-463 | deciding an exception cannot deadlock exactly when it is refused or the notice already has the status that what else is open implies |
| RevisionLocks.DuplicateDecisionSafeExactlyWhen | app/services/fnol/service.py:358-463 | deciding a duplicate cannot, exactly when it is refused or marks one, or the notice already has the status implied by what stays open: everything while another candidate is outstanding, otherwise everything but the duplicate question |
| RevisionLocks.QuestionIsDeleted | app/services/fnol/service.py:381-393 | the question's row is among the rows locked exactly when the decision deletes it |
| RevisionLocks.ClearingTheLastBlockerCanDeadlock | app/services/fnol/service.py:441-463 | clearing the last exception in the way of a claim moves the status, so a deadlock with a run is reachable |
| RevisionLocks.LockingFirstIsSafe | app/repositories/fnol.py:72-80 | taking the notice's lock first, as claim creation does, would make every such decision safe |
| SharedLocks.DeadlockFreeExactlyWhen | app/models/fnol.py:362-369 | with the shared locks that foreign keys take on notices anywhere in any of these transactions, the condition is the same |
| ClaimCreation.EmptyChecklistMeansReady | app/services/fnol/claims.py:98-135 | the checklist is empty exactly when nothing stands between the notice and a claim |
| ClaimCreation.ReferenceRepository.NextReference | app/repositories/reference.py:27-57 | the next number of the counter, the row created when absent, every other counter untouched |
| ClaimCreation.ClaimCreationService.Blockers | app/services/fnol/claims.py:98-135 | open blockers in checklist order, then each missing fact |
| ClaimCreation.ClaimCreationService.ClaimOf | app/repositories/claim.py:53-61 | the claim of this notice if there is one, and none only when there is none |
| ClaimCreation.ClaimCreationService.Answered | app/services/fnol/claims.py:155-179 | refuses or returns an existing claim exactly when no claim can be made, and says truly why |
| ClaimCreation.ClaimCreationService.WriteClaim | app/services/fnol/claims.py:181-282 | the claim, its two links, the counter and four audit events, and nothing else |
| ClaimCreation.ClaimCreationService.Create | app/services/fnol/claims.py:151-282 | makes a claim exactly when the notice is convertible; every other answer leaves the tables alone |
| ClaimRefinement.SoloCreateMatchesService | app/services/fnol/claims.py:151-282 | a create that meets nobody commits the very tables the sequential service leaves when it makes a claim |
| ClaimRefinement.SoloAnswerMatchesService | app/services/fnol/claims.py:155-179 | where the service makes none, it ends with the service's own answer, the existing claim or a refusal, and no table moves |
| ClaimRefinement.StaleClaimIsReachable | app/api/v1/routes/fnol.py:743-746 | a revision committed between the first read and the lock leaves a claim made of the notice as it was before |
| Lcs.NoneLonger | app/domain/matching.py:165-190 | no common subsequence is longer than the recurrence's length |
| Lcs.Witness | app/domain/matching.py:165-190 | some common subsequence has that length |
| Lcs.LengthIsSymmetric | app/domain/matching.py:178-180 | the length does not depend on which string comes first, so swapping them is safe |
| Lcs.LengthBounds | app/domain/matching.py:165-190 | the length is at most either string's and reaches both only for equal strings |
| Lcs.TwoRows | app/domain/matching.py:181-190 | two rows suffice: the last cell is the length of a longest common subsequence |
| Matching.SequenceRatio | app/domain/matching.py:165-190 | the shortcuts, the swap and the loop together give the ratio of the normalised strings |
| Matching.RatioMeasures | app/domain/matching.py:165-190 | the ratio lies in 0..1, is symmetric, and is 1 exactly for equal non-empty strings |
| Matching.NormaliseOrganisation | app/domain/matching.py:133-138 | what remains leads the words and ends in no company form, and every word dropped is one |
| Matching.TrimmedIsUnique | app/domain/matching.py:133-138 | there is one way to drop trailing company forms and nothing else |
| Matching.JaccardMeasures | app/domain/matching.py:141-148 | lies in 0..1 and is symmetric; 1 exactly for equal word sets that are not empty, 0 exactly for disjoint ones |
| Matching.ContainmentMeasures | app/domain/matching.py:151-162 | lies in 0..1 and is symmetric; 1 exactly when one word set contains the other and neither is empty, 0 exactly for disjoint ones |
| Matching.NameSimilarityMeasures | app/domain/matching.py:193-205 | lies in 0..1 and does not depend on the order of the names |
| Matching.ScoreIsConvex | app/domain/matching.py:245-256 | the weighted score lies between any bounds that hold of every compared signal |
| Matching.ScoreIsUnit | app/domain/matching.py:245-256 | signals of at most 1 give a score in 0..1, whatever the weights |
| Matching.ScoreIgnoresOrder | app/domain/matching.py:245-256 | permuting the signals does not change the score |
| Matching.UncomparedIsIgnored | app/domain/matching.py:245-256 | an uncompared or weightless signal has no influence wherever it stands |
| Matching.ContradictionCaps | app/domain/matching.py:245-256 | a signal that scored zero caps the result at the share of the other weights |
| PolicyMatch.ScoresAreUnit | app/domain/policy_match.py:63-125 | every policy score lies in 0..1 |
| PolicyMatch.ContradictedNumberIsNeverHigh | app/domain/policy_match.py:28-37 | a contradicted policy number caps the score at 7.9/12.9, so it is never a high or exact match at the default thresholds |
| PolicyMatch.Round4IsClose | app/domain/policy_match.py:113-125 | rounding a score to four places moves it by at most half a unit of the last |
| PolicyRanking.RankCandidates | app/domain/policy_match.py:133-145 | the viable candidates, sorted and cut to the limit |
| Ranking.SortIsRanking | app/domain/policy_match.py:141-145 | the sort loses and invents nothing and puts better scores first |
| Ranking.SortIsStable | app/domain/policy_match.py:141-145 | equal scores keep the order they came in |
| PolicyRanking.ExactLeavesNoRival | app/domain/policy_match.py:133-168 | an overall exact match leaves no other contender in the whole scored pool, however the candidates were scored |
| PolicyRanking.ExactIsUnambiguous | app/domain/policy_match.py:133-185 | it carries the notice's own number, is not known to be out of force, and filtering, sorting and truncation hid no rival |
| PolicyRanking.UnambiguousExactlyWhen | app/domain/policy_match.py:133-185 | over all lists of candidates the promise holds exactly when the candidate threshold is at most the high one and at least two are shown, or none |
| PolicyRanking.StricterFilterHidesRival | app/domain/policy_match.py:63-168 | scored for real: a notice stating "A1" against policies "A1" and "A12" reads as exact with a contender hidden, under every configuration with the high threshold at most 0.8 and the candidate one above it |
| PolicyBinding.MatchList.Chosen | app/repositories/fnol.py:443-447 | finds a human's choice if there is one |
| PolicyBinding.MatchList.ReplaceMatches | app/repositories/fnol.py:434-469 | every candidate under its rank, the chosen row kept even when it dropped out, its mark and author kept and put on no other |
| PolicyBinding.MatchList.Match | app/services/fnol/matching.py:74-107 | stores the ranking and binds the first candidate exactly when the overall match is exact and nothing is confirmed |
| PolicyBinding.MatchList.Select | app/services/fnol/matching.py:109-134 | binds and marks a stored candidate and no other; an unknown one changes nothing |
| PolicyBinding.RankedIdsAreDistinct | app/domain/policy_match.py:133-145 | no policy is ranked twice |
| PolicyBinding.ConfirmedIsSelected | app/services/fnol/matching.py:74-134 | over every sequence of rescorings and choices, confirmed means exactly one row is selected and it is the bound policy's |
| PolicyBinding.ConfirmationSurvives | app/repositories/fnol.py:434-469 | no rescoring deletes or deselects a confirmed policy, even one it no longer ranks |
| PolicyBinding.AutomaticBindingIsUnambiguous | app/services/fnol/matching.py:95-99 | a binding no human made is to the one contender of the pool |
| Duplicates.CompareIsSymmetric | app/domain/duplicates.py:66-138 | all signals agree in both directions exactly when both, or neither, bring a usable external reference |
| Duplicates.ExternalSignalSymmetry | app/domain/duplicates.py:114-124 | the external reference is the one signal that can depend on the order, and exactly when it does |
| Duplicates.ScoreIsSymmetric | app/domain/duplicates.py:66-138 | in that case the stored score is the same both ways |
| Duplicates.ScoresAgreeExactlyWhen | app/domain/duplicates.py:66-138 | exactly when the unrounded scores agree both ways: the references pair up, or the one comparison made finds a contradiction where nothing else agrees, or agreement where everything else does |
| Duplicates.ContradictingReferenceLowers | app/domain/duplicates.py:114-127 | a reference compared one way that contradicts lowers that direction's score exactly when the other signals score at all |
| Duplicates.QuotedNumberRaises | app/domain/duplicates.py:114-127 | one that quotes the other record's number raises it exactly when the other signals do not agree in full |
| Duplicates.ContradictionExample | app/domain/duplicates.py:114-127 | two records of one day, one of them naming a third |
| Duplicates.QuotationExample | app/domain/duplicates.py:114-127 | two records two days apart, one of them naming the other |
| Duplicates.DateSignalMeasures | app/domain/duplicates.py:145-153 | the decay is symmetric and stays in 0..1 |
| Duplicates.DuplicateScoreIsUnit | app/domain/duplicates.py:66-138 | every duplicate score lies in 0..1 |
| Duplicates.DifferentPoliciesAreNeverStrong | app/domain/duplicates.py:26-35 | records with different policy numbers stay at or below 12.8/15.8, under the strong level |
| FieldStore.Desk.UpsertField | app/repositories/fnol.py:305-353 | a corrected row only has its evidence refreshed, which is why corrections survive (`FieldTheorems.CorrectionSurvives`) |
| FieldStore.Desk.Record | app/services/fnol/extraction.py:204-223 | the row is upserted and the value taken only when it parsed and no human set it |
| FieldStore.Desk.RecordAll | app/services/fnol/extraction.py:204-392 | after all fields every row and value is that of its own reading, whatever the others were |
| FieldStore.Desk.Apply | app/services/fnol/extraction.py:184-392 | the whole notice after one extraction; the currency follows unless the amount is the officer's |
| FieldStore.Desk.Correct | app/services/fnol/service.py:189-221 | one correction with its first original kept, and no change at all when the value is the current one |
| FieldStore.Desk.UpdateFields | app/services/fnol/service.py:161-262 | accepted exactly when no update is refused, and then every update in order |
| FieldStore.Desk.Select | app/services/fnol/matching.py:127-134 | the policy's number, and its insured only where there was no name; how long it stands is `FieldTheorems.SelectionOutranksReadings` |
| FieldTheorems.CorrectionSurvives | app/repositories/fnol.py:342-346 | over every sequence of readings, other edits and supplied values a corrected row keeps value, confidence, source, author and original, and the notice keeps the officer's value, a clearing included |
| FieldTheorems.LastEditWins | app/services/fnol/service.py:189-221 | the last effective edit of a path is what every later run ends with |
| FieldTheorems.EntryOutranksReadings | app/services/fnol/service.py:189-221 | an entry outranks every reading exactly when it changed something or the path was corrected before |
| FieldTheorems.FirstCorrectionKeepsReading | app/services/fnol/service.py:200-215 | the first correction keeps what was there, or its own text when nothing was |
| FieldTheorems.OriginalIsWrittenOnce | app/services/fnol/service.py:189-221 | after the first correction no action rewrites the original value or unmarks the row |
| FieldTheorems.AmountKeepsItsCurrency | app/services/fnol/extraction.py:333-342 | while the amount is the officer's its currency is too |
| FieldTheorems.RereadingIsIdempotent | app/services/fnol/extraction.py:184-392 | reading the same notice again changes nothing |
| FieldTheorems.TogglesAreNotProtected | app/services/fnol/extraction.py:377-386 | an officer's switch survives any later actions exactly when the last of them to state it states the same, and so one reading exactly when it does not state the opposite |
| FieldTheorems.SwitchIsLastSaid | app/services/fnol/extraction.py:377-386 | over every sequence of actions a switch stands as whatever spoke of it last left it |
| FieldTheorems.SelectionOutranksReadings | app/services/fnol/matching.py:127-131 | a confirmed policy's number stands against every reading exactly when the number had been corrected before |
| DuplicateReview.Keep | app/services/fnol/matching.py:198-202 | the assessments at or above the threshold, in scan order |
| DuplicateReview.CandidateList.Upsert | app/repositories/fnol.py:484-516 | a rescored candidate keeps its decision; a new one is undecided; what that keeps over rescans is `DuplicateReview.RescanKeepsDecision` |
| DuplicateReview.CandidateList.Prune | app/repositories/fnol.py:518-529 | drops exactly the undecided candidates that no longer score |
| DuplicateReview.CandidateList.Detect | app/services/fnol/matching.py:176-226 | stores exactly what scores now and what was decided before, and reports what scores, likeliest first |
| DuplicateReview.LikeliestAreRanked | app/services/fnol/matching.py:198-203 | exactly the records at or above the threshold, each once, best score first |
| DuplicateReview.CandidateList.OthersOutstanding | app/services/fnol/service.py:385-390 | whether any candidate but this one awaits a decision |
| DuplicateReview.OutstandingAfterRescan | app/repositories/fnol.py:518-529 | after a rescan the undecided are the scoring references not decided before, and the decided are as before |
| DuplicateReview.RescanKeepsDecision | app/repositories/fnol.py:500-504 | a rescan changes a decided row's score and nothing else |
| DuplicateReview.RescanIsIdempotent | app/services/fnol/matching.py:176-226 | rescanning the same records changes nothing |
| DuplicateReview.DecisionStands | app/repositories/fnol.py:484-529 | over any rescans and decisions a decision stands, with author and note, until that candidate is decided again |
| DuplicateReview.DecidedForGood | app/repositories/fnol.py:484-529 | no action makes a decided candidate outstanding again |
| ExceptionReview.StrongestOutstanding | app/services/fnol/exceptions.py:248-254 | the best score among undecided candidates, none exactly when there are none |
| ExceptionReview.Collect | app/services/fnol/exceptions.py:104-355 | each code is raised at most once, exactly when its cause holds, at its level |
| ExceptionReview.ExceptionList.Upsert | app/repositories/fnol.py:554-591 | refreshes a row without touching its standing, which is why a decision stands (`ExceptionReview.EvaluationKeepsDecision`) |
| ExceptionReview.ExceptionList.Clear | app/repositories/fnol.py:593-603 | removes an open row only, so no decided one is ever deleted (`ExceptionReview.DecidedNeverReopens`) |
| ExceptionReview.ExceptionList.Evaluate | app/services/fnol/exceptions.py:50-102 | one row for each raised code and each decided one, and no other |
| ExceptionReview.ExceptionList.Decide | app/services/fnol/service.py:410-428 | decides an open exception; refuses one that is absent or already decided, so none is decided twice (`ExceptionReview.DecidedNeverReopens`) |
| ExceptionReview.OpenAfterEvaluation | app/services/fnol/exceptions.py:86-102 | the open codes are exactly those with a cause that no officer decided |
| ExceptionReview.EvaluationKeepsDecision | app/repositories/fnol.py:586-591 | an evaluation leaves a decided row decided, with author and note |
| ExceptionReview.DecidedNeverReopens | app/repositories/fnol.py:554-603 | over every sequence of evaluations, clearings and decisions a decided exception is never reopened, deleted or decided again |
| ExceptionReview.MarksAreRight | app/services/fnol/exceptions.py:40-42 | a stored row is marked blocking exactly when its code blocks |
| NoticePipeline.CaseFile.Run | app/services/fnol/pipeline.py:99-370 | the reading's fields, then matching, duplicates, exceptions and status, each on what the ones before left; a stage that raises keeps what was written and forces the failed status |
| NoticePipeline.CaseFile.Select | app/api/v1/routes/fnol.py:405-434 | an officer's choice, the policy's number on the notice, and the run after it; refused on a converted notice or an unlisted policy |
| NoticePipeline.CaseFile.Correct | app/api/v1/routes/fnol.py:376-397 | an officer's corrections and, if any changed a value, the run or the refresh asked for; refused whole on a converted notice or at one bad field |
| NoticePipeline.CaseFile.ConfirmCatastrophe | app/api/v1/routes/fnol.py:577-594 | the status refreshed after a catastrophe decision, unless it is refused |
| NoticePipeline.CaseFile.RefreshStatus | app/services/fnol/service.py:441-463 | the status implied by the exceptions open now, which is ready exactly when nothing blocks (`NoticeTheorems.ReadyExactlyWhenNothingBlocks`) |
| NoticePipeline.CaseFile.ResolveException | app/services/fnol/service.py:410-439 | one decision and the status it implies, or nothing |
| NoticePipeline.CaseFile.ResolveDuplicate | app/services/fnol/service.py:358-406 | a duplicate rejects the notice; otherwise the question closes only once every other candidate is decided |
| NoticePipeline.CaseFile.Transition | app/services/fnol/service.py:465-482 | moves only along a legal transition and never into a claim |
| NoticeTheorems.AlwaysSettled | app/services/fnol/pipeline.py:99-370 | through every action, confirmed means one selected row, the bound policy's, and blocking marks are right |
| NoticeTheorems.ExceptionDecisionStands | app/repositories/fnol.py:554-603 | no run, edit, transition or conversion reopens a decided exception |
| NoticeTheorems.DuplicateDecisionStands | app/repositories/fnol.py:484-529 | no action makes a decided duplicate outstanding, nor alters it unless an officer decides it again |
| NoticeTheorems.ConfirmedPolicyStands | app/services/fnol/matching.py:74-134 | a confirmed policy stays bound, stored and selected until an officer selects again |
| NoticeTheorems.FieldCorrectionStands | app/services/fnol/service.py:189-221 | through every run and every action a corrected field keeps value, author and original until an officer sets it again |
| NoticeTheorems.CorrectedNumberBinds | app/services/fnol/matching.py:74-107 | while a corrected policy number stands, any run that binds another policy binds one carrying that number, and no other policy of its pool contends |
| NoticeTheorems.ReadyExactlyWhenNothingBlocks | app/domain/lifecycle.py:178-204 | after every action that recomputes the status, a working notice is ready exactly when nothing blocking is open |
| NoticeTheorems.DecidedDuplicatesStayQuiet | app/services/fnol/exceptions.py:248-271 | once every candidate is decided and the question closed, no run that scores no new record and no officer action asks it again |
| NoticeTheorems.QuestionAfterRun | app/services/fnol/exceptions.py:248-253 | a completed run leaves the duplicate question open exactly when a record no one decided scored and the question itself was not decided |
| NoticeTheorems.ClearRunSettlesPolicy | app/services/fnol/exceptions.py:136-170 | a completed run with nothing blocking, no policy question waved through, means a confirmed and selected policy or an unambiguous exact match |
| NoticeTheorems.HowTerminalIsLeft | app/services/fnol/pipeline.py:117-122 | exactly how a notice leaves a terminal status: a failing run, a conversion, or a cancelled notice marked a duplicate |
| NoticeTheorems.ConvertedOnce | app/services/fnol/claims.py:160-182 | a converted notice is never converted again, even after a failed run moved its status |
| NoticeTheorems.RunningAgainChangesNothing | app/services/fnol/pipeline.py:99-370 | a completed run repeated with the same inputs, its reading taken again or reused, leaves the whole notice as it was |
| PolicyBinding.RescoringIsIdempotent | app/repositories/fnol.py:434-469 | rescoring against the same pool again changes nothing |
| ExceptionReview.EvaluationIsIdempotent | app/services/fnol/exceptions.py:50-102 | evaluating the same findings again changes no row |
| Sessions.AloneItIsOneAction | app/services/fnol/pipeline.py:99-370 | when nobody acts in between, a run written back column by column is the run as one action, wherever it stops, and nothing else |
| Sessions.FlushingWhatStands | app/db/session.py:46-51 | a session that makes of a table what others have made of it goes through and changes nothing |
| Sessions.DecisionDecides | app/services/fnol/service.py:358-463 | an officer's decision does to the two lists only what the theorems below allow for: it decides open rows, or deletes the open question |
| Sessions.ActionsKeepDecisions | app/repositories/fnol.py:518-603 | over any sequence of whole actions, runs included, what a session had loaded as decided still is |
| InterleavedRuns.CorrectionSurvivesExactlyWhen | app/services/fnol/extraction.py:204-223 | an officer's value committed before the lock survives a run exactly when the run reads none, had loaded the correction, or reads the loaded value or the officer's; the mark stays |
| InterleavedRuns.CorrectionSurvivesReading | app/repositories/fnol.py:322-353 | and its row under the same condition column by column |
| InterleavedRuns.LostCorrectionIsProtected | app/repositories/fnol.py:342-346 | a value that overwrote a correction is kept by every later reading |
| InterleavedRuns.OverwrittenExample | app/services/fnol/extraction.py:204-223 | a field loaded as one text, corrected to a second, written as a third |
| InterleavedRuns.SelectionSurvivesExactlyWhen | app/api/v1/routes/fnol.py:399-433 | a selection and the run that goes with it stand after a run that had loaded the notice before, exactly when that run still ranks the policy or had loaded it as chosen, and binds none by itself, or that one |
| InterleavedRuns.ConfirmationSurvivesExactlyWhen | app/repositories/fnol.py:434-469 | the same of any confirmation a run meets, whatever it had loaded, two rows marked as chosen included |
| InterleavedRuns.LostSelectionExample | app/repositories/fnol.py:448-451 | a policy selected while a run was under way that ranks none is confirmed without a stored row |
| InterleavedRuns.SecondSelectionExactlyWhen | app/services/fnol/matching.py:109-131 | when two officers select for a notice neither had loaded as confirmed, it is left with one chosen row, the bound policy's, exactly when they mean the same policy, or the second one's was not bound when loaded and the first one's row goes or is new to the second session |
| InterleavedRuns.TerminalStaysExactlyWhen | app/services/fnol/pipeline.py:99-107 | a notice rejected, cancelled or converted after the load stays so exactly when it was not new and the run arrives at the status it had loaded |
| InterleavedRuns.DecisionSurvivesExactlyWhen | app/repositories/fnol.py:593-603 | a decided exception survives the flush exactly when the session does not hold it open or still finds its cause; otherwise it is deleted |
| InterleavedRuns.SerialExactlyWhen | app/services/fnol/exceptions.py:86-102 | when officers only decided or closed exceptions, the list is as if the evaluation had followed them exactly when no decision is deleted and no caused exception was closed under the run; what is open differs by the latter alone |
| InterleavedRuns.LostDecisionReopens | app/repositories/fnol.py:554-603 | a deleted decision's exception is open again after the next run that finds its cause |
| InterleavedRuns.DismissedInVain | app/repositories/fnol.py:593-603 | an open exception without a cause any more, dismissed before the flush, is gone with its dismissal |
| InterleavedRuns.SecondDecisionReplaces | app/services/fnol/service.py:410-428 | a second decision on an exception loaded open replaces standing and author and keeps the first note unless it has its own; exactly when the first one survives that |
| InterleavedRuns.ResolutionSurvivesExactlyWhen | app/repositories/fnol.py:518-529 | a decided candidate survives exactly when the session does not hold it undecided or it still scores |
| InterleavedRuns.RescanSerialExactlyWhen | app/repositories/fnol.py:484-529 | when officers only decided candidates, they are as if the scan had followed exactly when it deletes none of the decisions |
| InterleavedRuns.LostResolutionExample | app/repositories/fnol.py:518-529 | a candidate linked while a run was under way that no longer scores it is deleted |
| OverlappingRuns.OpenExactlyWhen | app/services/fnol/exceptions.py:86-102 | after a run, whatever runs and officers did since its load, an exception is open exactly when this run found its cause and nobody had decided or closed it under the run |
| OverlappingRuns.OutstandingExactlyWhen | app/services/fnol/matching.py:205-219 | a candidate awaits a decision exactly when this run scored it and nobody had decided it |
| OverlappingRuns.StoredExactlyWhen | app/repositories/fnol.py:434-469 | the stored policies are those this run ranks and the one its session takes for chosen, while the bound policy is the earlier one exactly when this run's is no news to its session |
| OverlappingRuns.ReadingStandsExactlyWhen | app/services/fnol/extraction.py:204-223 | what the last run reads of an uncorrected field is its value exactly when the session had loaded another, or it stood there already |
| OverlappingRuns.QuestionIsAskedExactlyWhen | app/services/fnol/pipeline.py:299-305 | the duplicate question is open exactly when a candidate the session holds undecided scores, decided since or not, and the question was gone when the run looked or is still open |
| OverlappingRuns.ClosedQuestionReopensExactlyWhen | app/services/fnol/service.py:381-393 | after the last candidate was decided and the question closed, a run that had loaded the notice before reopens it exactly when it scores a record it does not hold as decided |
| OverlappingRuns.ReadyExactlyWhenNothingBlocks | app/services/fnol/pipeline.py:353-363 | after an overlapping run a working notice is ready exactly when nothing blocks, exactly unless the run arrives at the loaded status while others moved the notice to ready or away from it |
| OverlappingRuns.TwinsAreOneRun | app/services/fnol/pipeline.py:99-370 | a run that had loaded the notice before another on the same inputs wrote it goes through and leaves exactly what that one left |
| OverlappingRuns.ReusedReadingForgets | app/services/fnol/pipeline.py:167-186 | if it reuses the first run's reading, and the notice named no policy when loaded, the values stay, every stored candidate policy goes, and a missing policy is reported unless that was decided |
| OverlappingRuns.SecondRunIsNotReady | app/services/fnol/pipeline.py:167-186 | so a new notice processed twice at once does not end ready, whatever the first run made of it |
| OverlappingRuns.RankIsItsPlaceExactlyWhen | app/repositories/fnol.py:461-463 | a ranked policy is stored under its place exactly when the session had loaded another place or none, or it stood there already |
| OverlappingRuns.RanksCollide | app/repositories/fnol.py:461-463 | two runs that each rank in order leave two policies in one place |
| ReopenedExample.AskedInVainExample | app/services/fnol/service.py:381-393 | the last candidate linked, the notice ready, and a run that had loaded it before leaves the question open and the notice ready |
| PdfStrings.DecodeLiteral | app/services/documents/text.py:228-240 | the index loop reads escapes and plain bytes alike to the end of the body |
| PdfStrings.StandardExactlyWhen | app/services/documents/text.py:159-240 | of any literal strings of section 7.3.4.2 of ISO 32000-1 on a page, all are found whole and read as it has them exactly when none has a bare parenthesis or a carriage return or escapes an octal digit or an end of line |
| PdfStrings.BodyStandardExactlyWhen | app/services/documents/text.py:203-240 | a body once cut out is decoded as that section has it exactly when it escapes no octal digit and no end of line and holds no carriage return |
| PdfStrings.LiteralFoundExactlyWhen | app/services/documents/text.py:159 | the pattern takes a legal literal string whole exactly when no parenthesis is bare and no line feed escaped |
| PdfStrings.FoundExactlyWhen | app/services/documents/text.py:159 | pieces on a page, with text around them that opens none, are found one by one and whole exactly when each matches the pattern by itself |
| PdfStrings.NestedExample | app/services/documents/text.py:159-184 | of the legal string (a(b)c) only the inner one is found |
| PdfStrings.OctalExample | app/services/documents/text.py:203-240 | an escaped octal 050 comes through as three digits instead of a parenthesis |
| PdfStrings.Chunks | app/services/documents/text.py:183-184 | each token of a stream decoded, in order |
| PdfStrings.PageTokens | app/services/documents/text.py:159 | the token pattern finds exactly the strings of a page, in order, with any text around them that opens none |
| PdfStrings.BodyRoundTrip | app/services/documents/text.py:228-240 | decoding undoes the escaping of parentheses and backslashes |
| PdfStrings.PageReadsBack | app/services/documents/text.py:159-184 | whatever literal and hexadecimal strings are written on a page, the loop yields what they mean, all of it, in order |
| PdfStrings.HexMeansItsBytes | app/services/documents/text.py:215-226 | a hexadecimal string comes back as its bytes exactly when it has no byte-order mark |
| PdfStrings.MarkedTextRoundTrip | app/services/documents/text.py:223-225 | any text survives being written as marked UTF-16 in hexadecimal |
| PdfStrings.OddDigitsArePadded | app/services/documents/text.py:216-218 | a missing last digit is zero |
| Money.ParseMoneyMinor | app/domain/normalisation.py:133-158 | every amount read lies in 0..the largest accepted loss |
| Money.PrintedReads | app/domain/knowledge_graph.py:260-269 | any printed amount reads back as the whole units it shows, if acceptable |
| Money.PrintedRoundTrip | app/domain/normalisation.py:133-158 | printing then parsing is exact on the whole-unit amounts up to the largest loss, in every currency, and on no other amount |
| Money.PenceRoundTrip | app/domain/normalisation.py:145-158 | with its pence written out every accepted amount reads back exactly |
| Money.SuffixedAmountReads | app/domain/normalisation.py:138-150 | an amount followed by a word for thousands or millions reads as that many |
| Money.UngroupingIsExact | app/domain/normalisation.py:150 | without its separators a grouped number has the value it was grouped from |
| Corpus.BuildCorpus | app/services/fnol/extraction.py:155-173 | the stripped notice and each attachment's share under its number |
| Corpus.AttachmentsAreBudgeted | app/services/fnol/extraction.py:164-171 | the attachments overrun what is left by less than one floor |
| Corpus.IncludedIsShown | app/services/fnol/extraction.py:169 | an included attachment is whole or shown to at least its first 2000 characters |
| Corpus.LeftOutOnlyWhenSpent | app/services/fnol/extraction.py:166-171 | an attachment is left out only once earlier ones used the whole budget |
| Corpus.EveryAttachmentIsShown | app/services/fnol/extraction.py:164-171 | with 2000 characters for each, none is left out and each shows at least that much or all it has |
| Corpus.NoticeComesFirst | app/services/fnol/extraction.py:163-173 | the whole notice leads, over budget or not, and stands alone once it fills the budget |
| Fraud.Combine | app/domain/assessment.py:565-569 | the loop computes one minus the product of what each indicator leaves |
| Fraud.Assess | app/domain/assessment.py:453-578 | each indicator once exactly when its fact holds, with that score and its level |
| Fraud.ScoreIgnoresOrder | app/domain/assessment.py:567-569 | the sort before the loop does not affect the score |
| Fraud.MoreNeverLowers | app/domain/assessment.py:565-576 | further indicators never lower the score or the level, and never reach certainty |
| Fraud.ScoreBounds | app/domain/assessment.py:565-569 | the score is at least every single weight and below 1 |
| Fraud.LevelsNeedIndicators | app/domain/assessment.py:571-576 | at the default thresholds medium takes at least two indicators and high at least four |
| Fraud.LevelsAreReached | app/domain/assessment.py:571-576 | both counts are attained |
| ClaimGraph.TextIsInjective | app/domain/knowledge_graph.py:385-394 | the identifier texts the builder compares are equal only for the same entity: no namespace hides another |
| GraphBuilder.Builder.Add | app/domain/knowledge_graph.py:389-394 | the node is in once, and nothing else changed |
| GraphBuilder.Builder.Link | app/domain/knowledge_graph.py:399-428 | the edge is added exactly when both ends exist and differ |
| GraphBuilder.Builder.AddContract | app/domain/knowledge_graph.py:592-728 | policy and insured where the records have them, the insured tied to the claim only without a policy |
| GraphBuilder.Builder.AddIncident | app/domain/knowledge_graph.py:749-860 | incident and location, and the policy's schedule |
| GraphBuilder.Builder.AddAssets | app/domain/knowledge_graph.py:866-921 | one node for each asset, under the incident or else the claim |
| GraphBuilder.Builder.AddCoverage | app/domain/knowledge_graph.py:927-1020 | one node for each check key, the first check deciding its flag, and every asset under the limit check |
| GraphBuilder.Builder.AddEvidence | app/domain/knowledge_graph.py:1026-1139 | the notice and each document, cited ones tied to the incident |
| GraphBuilder.Builder.AddPeople | app/domain/knowledge_graph.py:1145-1287 | broker, handler and adjuster where the records name them |
| GraphBuilder.Builder.AddCatastrophe | app/domain/knowledge_graph.py:1293-1394 | the attributed event, or else the first considered one |
| GraphBuilder.Builder.AddRisk | app/domain/knowledge_graph.py:1424-1527 | each well-formed indicator and each open exception code |
| GraphBuilder.Builder.AddRelated | app/domain/knowledge_graph.py:1548-1629 | each related reference once, a duplicate's description before a same-policy one's |
| GraphBuilder.Builder.Seed | app/domain/knowledge_graph.py:1658-1788 | scaffolding exactly where the records have nothing of its sort |
| GraphBuilder.BuildClaimGraph | app/domain/knowledge_graph.py:515-544 | unique identifiers; exactly the expected entities, each as its records describe it; exactly the expected relationships; figures of that very graph |
| GraphBuilder.Summarise | app/domain/knowledge_graph.py:1794-1911 | every figure, and every signal with its tone, is counted over the built lists |
| GraphTheorems.CoverageIsOkExactlyWhen | app/domain/knowledge_graph.py:1820-1844 | the coverage signal reassures exactly when coverage was read with 70% confidence and no check needs a decision |
| GraphTheorems.RiskIsBadExactlyWhen | app/domain/knowledge_graph.py:1885-1896 | the risk signal is bad exactly when an indicator is grave, an open exception blocks, or scaffolding stands in for indicators the claim lacks |
| GraphTheorems.RelatedIssueExactlyWhen | app/domain/knowledge_graph.py:1548-1592 | a related record is an issue exactly when the row that describes it scores at least 0.8 and reads open |
| GraphTheorems.StoredDuplicatesAreNeverIssues | app/domain/enums.py:142-146 | with the resolutions duplicate review stores, no related record is ever an issue |
| GraphTheorems.EdgesAreClosed | app/domain/knowledge_graph.py:415-428 | every relationship joins two different entities that are both in the graph |
| GraphTheorems.EveryEntityIsReached | app/domain/knowledge_graph.py:515-544 | whatever records a claim has or lacks, each entity is reached from the claim along directed edges |
| GraphTheorems.ScaffoldingOnlyAddsNodes | app/domain/knowledge_graph.py:1658-1788 | scaffolding changes no entity of the records, and the entities it adds are exactly the ones marked seeded |
| GraphTheorems.ScaffoldingOnlyAddsEdges | app/domain/knowledge_graph.py:1658-1788 | the same of relationships |
| GraphTheorems.NothingRealIsShadowed | app/domain/knowledge_graph.py:1661-1736 | no seeded entity stands beside a real one of its sort |
| GraphTheorems.FigureIsLength | app/domain/knowledge_graph.py:1794-1817 | a figure is the length of any list of the entities it counts |
| GraphTheorems.SeededFigure | app/domain/knowledge_graph.py:1815 | how much of the graph is scaffolding, from the records alone |
| GraphTheorems.EvidenceFigure | app/domain/knowledge_graph.py:1802-1811 | every document once, and the notice when there is one |

## Left out

- Routes, authentication, storage, queues, logging, model calls, retries and rendering: input and output. The routes only decide which actions exist and where the commit is.
- SQL pools and queue filters: a candidate pool is an arbitrary sequence, with distinct keys where the tables have them.
- Interleaving in `NoticeTheorems`: every run and every officer action is one atomic step there. `Sessions` and the modules on it have what that leaves out for a run with anything in between.
- Row locks are on notices, the rows officers decide and the counters; policies, events and documents are only ever referred to, and their rows are left out.
- ClaimProgress.ClosestCanStep: of a revision it knows the lock of the notice only; the rows beside it, and the deadlocks they cause, are in `RevisionLocks`.
- ClaimProgress.NeverDeadlocked: knows no more of a revision than that.
- ClaimProgress.Drains: nor does it.
- Sessions.AloneItIsOneAction: the session that is behind is that of a run started by itself, of a selection with its run, or of a decision on an exception; an officer's corrections on a notice loaded before another action are not considered. A run's queries count as made at one moment and its flushes at another.
- Floating-point error: scores are exact reals. Rounding to four places is modelled where a score is stored; the graph's display rounding is not.
- Unicode: text is normalised, stripped and lower-cased as ASCII; accents, other digits and other spaces are not modelled.
- Dates as text and time zones: moments are seconds, policy dates days, and the clock's verdict on a future date is an input.
- Prose: titles, details, reasoning, labels, properties, sources and confidences shown beside exceptions, signals and graph nodes.
- Label reading, classification, completeness, severity, coverage, triage, assignment and the catastrophe distance: long branch tables with easy claims; their verdicts are inputs.
- Graph edge identifiers: a record that is both a duplicate and a same-policy claim has two edges under one identifier, so uniqueness is not claimed, nor is the order of nodes and edges.
- Splitting the affected-assets text into names is not modelled; the list of names is an input.
- NoticePipeline.CaseFile.Run: does not include what classification, completeness and the assessments write, nor a failure inside one stage's own writes; those are inputs, arbitrary on every run.
- PdfStrings.MarkedTextRoundTrip: says nothing of malformed UTF-16, where the model replaces each broken unit and the number of replacements in a truncated pair is not tied to the library's.
- Corpus.BuildCorpus: the later joining of the prompt around the corpus is not modelled.
- Money.ParseMoneyMinor: uses unbounded decimals in place of the library's 28-digit context, which matters only far above the largest accepted loss.
- ClaimProtocol.Apply: models triage, assignment and their audit rows as two events written with the claim, without their contents.
