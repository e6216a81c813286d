# Verification of the voting platform

A Dafny 4.11 model of the parts of the platform where a mistake changes who wins, who may act, or
what is stored:

* the voting engine (`apps/compute/voting-core`) and the service that feeds it
  (`apps/compute/compute-service`),
* three database protocols of the backend (`apps/backend/internal`): elections with tally jobs and
  versioned results, sessions with rotating tokens, ballot submission behind a Redis cache and lock,
* the dataset generator, its cell printers and the parsers that read them back.

`dafny verify dfyconfig.toml` checks everything.

## How the model is laid out

| file | contents |
|---|---|
| `Wrappers`, `Sums`, `Orders`, `Inversions` | options and results; sums over sequences, double counting, pigeonhole; candidate order, sorting; inversion counts |
| `Profiles`, `Reductions`, `Matrices`, `Scorers`, `Deciders`, `Elimination` | the voting engine, from validated ballots to elected candidates |
| `ComputeService` | wire ballots to a profile |
| `ElectionLifecycle`, `Sessions`, `Submission` | the three protocols |
| `Text`, `Decimal` (in `Text.dfy`), `Printers` | dataset cells and their parsers |
| `Powers` | remainders, powers of two, inverses modulo a power of two |
| `Random`, `Shuffling`, `Preferences`, `ScoreLevels`, `Generator` | the dataset generator, each method with the generator state it leaves behind |
| `Datasets` | what generated datasets are like |

Code that updates variables or rows is a method or a class, proved against a specification
function; the properties are lemmas about those functions. A rayon `map`/`reduce` is a method that
takes a `Plan`, any binary tree over the voters with identities anywhere, and the result is proved
to be the same for every plan. A protocol is a `Step` function over events and `Run` over any list
of events; an event that is not enabled changes nothing. Each SQL transaction is one step;
`Submit` is several.

## What the proofs found

Voting:

* The comment at `apps/compute/voting-core/src/matrix/condorcet.rs:18` says that opposite cells of
  the Condorcet matrix sum to one. They do exactly off ties (`CondorcetCellsSumToOneIffNotTied`);
  two voters who disagree make them all zero (`TiedProfileBreaksTheComment`). The model follows the
  code.
* The pairwise matrix writes cells by raw candidate id. With different ids and two or more
  candidates that is in bounds exactly when they are numbered 0..n-1 (`PairwiseIndexSafe`), which a
  removal preserves exactly when it removes the highest-numbered candidates
  (`RemovalKeepsNumbersIff`).
* Ballots shorter than the name list pass validation and can still make `index_of(..).unwrap()`
  fail (`ShortBallotBreaksLookup`); full-length ballots cannot (`FullLengthIsValid`).
* With a single candidate the Nanson and inverse Borda rules return no winner at all
  (`CondorcetWinnerElectedIffOpposed`).
* Nanson and inverse Borda name nobody exactly when some round finds all remaining Borda scores
  equal, even with three or more candidates left (`OutcomeIff`); a cycle of three voters is enough
  (`CycleUndecided`).
* Hare panics exactly when some round meets an exact tie of everyone left
  (`HareNamesOneOrPanics`, smallest case `HareDeadHeatPanics`). For V voters and n candidates some
  profile panics exactly when one of the numbers from 2 to n divides V (`HarePanicPossibleIff`).
* Hare removes all candidates tied for last at once, so it can elect a Condorcet loser: exactly
  when some round finds the loser alone ahead of a tie of all others (`HareElectsLoserIff`,
  `HareElectsLoserOfThreeIff`; example `HareElectsCondorcetLoser`).
* The anti-plurality scorer counts last places, although its comment says it gives a point to
  everyone else; the model follows the code.

Protocols:

* After publication a repeated result message adds a newer, unstamped version, and readers get that
  one (`ReadersSeePublishedIffNotRedelivered`; a whole run from an empty database in
  `RedeliveryHidesPublishedVersion`).
* Publishing a closed election is allowed by `nextStatus` but always rolled back
  (`PublishFromClosedIsRolledBack`).
* The submission lock keeps requests apart as long as it never expires under a request that holds
  it; the lock of a crashed request may time out (`LockExcludesUnlessExpiredWhileHeld`). An expiry
  can lead to two holders exactly when the lock is held at that moment
  (`SecondHolderPossibleIffHeld`). The upsert alone keeps ballots safe. A key reused for another
  ballot is answered "accepted" although the first ballot is the one stored
  (`ReusedKeyKeepsFirstBallot`).

Datasets:

* The generator's low bit flips on every draw, so a polarized voter's side and number of swaps are
  both fixed by the parity of the state, and every polarized voter leaves an odd state
  (`PolarizedByParity`, `PolarizedLeavesOdd`). A polarized dataset therefore never splits, although
  `apps/frontend/src/pages/researcher/DatasetsPage.tsx:234-235` promises opposite groups: all
  voters after the first are two swaps from the common order in ranking and score datasets, and one
  swap from its reverse in approval datasets (`LaterVotersShareOnePole`,
  `PolarizedDatasetHasOnePole`). The parities of the seed and the number of candidates fix the
  first voter's side (`FirstVotersPole`).
* From four candidates on the last draw of a shuffle repeats a bit of the draw among four, so some
  orders are dealt from no seed; every order can be dealt exactly up to three candidates
  (`EveryOrderDealtIffFew`). In a uniform ranking dataset of three candidates all voters share one
  coin, the seed's parity, so at most three of the six orders occur (`SeedTossesTheCoin`), although
  `DatasetsPage.tsx:230-231` promises random, independent profiles.
* The `b` lowest bits of the generator repeat after exactly 2^b draws (`LowBitsRepeatIff`). In a
  uniform score dataset with 2^b levels two voters submit the same scores exactly when 2^b divides
  the number of draws between them (`UniformScoresRepeatIff`), so there are at most 2^b different
  ballots, over and over (`UniformScoresCycle`), and everybody submits the same ballot exactly when
  2^b divides the number of candidates (`EverybodyScoresAlikeIff`): two levels and an even number of
  candidates are enough.
* The loop over the score levels wraps. Let g be the largest power of two that divides the step.
  For limits that pass validation and find room the loop ends if and only if max + g is a machine
  `int` (`LoopEndsIff`; for all limits `LevelsEndIff`); generation never returns exactly when it is
  not (`NeverReturnsIff`). INT_MAX - 1 to INT_MAX, and 0 to 2^62 in steps of 2^62, are such limits
  (`TwoLevelsNeverEnd`, `WideStepNeverEnds`). For a range that is an `int`, the levels are right
  exactly when max + step is one too (`LevelsFitIff`); in between, the loop ends with wrong levels
  (`ThreeFates`, `WideStepEndsWrong`).
* Not every valid request comes to a dataset of legal ballots. It does if and only if (`Serves`,
  `LegalDatasetIff`) it has no score limits; or, in the consensus and polarized models, the value
  past the last level fits and there is room for the levels (`ModelScoresLegalIff`); or, in the
  uniform model, which draws its scores without looking at the levels, the range is an `int`, there
  is room, and the loop ends (`UniformScoresIff`). What the uniform model writes is always legal.
  The other models write illegal ballots exactly when the loop ends with wrong levels
  (`IllegalDatasetIff`; example `IllegalScoreWritten`). A range too wide for an `int` passes
  validation, and panics unless the step makes up the difference to 2^64 (`WideRange`).
* `itoa` prints only a minus sign for the smallest machine integer (`ItoaBuffer`).

## Assumptions

* Transactions are serialised on the rows they share: two result messages for one election, and a
  refresh and a login of one user, do not interleave inside.
* One clock that never goes back; hashes are injective; random tokens are fresh; ids have one
  spelling.
* Result messages name a tally job that a worker has claimed, and its election; they may be
  repeated without limit.
* A Rust vector holds fewer than 2^63 voters, so a head-to-head difference fits an `isize`.

## Model

| member | source | states |
|---|---|---|
| Profiles.IndexOf | apps/compute/voting-core/src/models/profile.rs:49-53 | the binary search finds a candidate's place in the sorted active list, and nothing for any other candidate |
| Profiles.FindDouble | apps/compute/voting-core/src/models/ranking.rs:188-195 | no report exactly when no ballot repeats a candidate; otherwise the first repeated candidate of the first such ballot |
| Profiles.TryFrom | apps/compute/voting-core/src/models/ranking.rs:151-208 | which of the five errors is reported for which input, and otherwise the profile with the first k names as active candidates |
| Profiles.RemoveCandidates | apps/compute/voting-core/src/models/ranking.rs:94-136 | an unknown candidate is refused (the first such); otherwise every ballot and the rebuilt active list lose exactly the removed candidates |
| Profiles.RebuiltActive | apps/compute/voting-core/src/models/ranking.rs:126-135 | sorting the shortened first ballot gives the old active list without the removed candidates |
| Profiles.RemovedValid | apps/compute/voting-core/src/models/ranking.rs:94-136 | a removal keeps the profile invariant: every ballot ranks each active candidate once |
| Profiles.RemovedCompose | apps/compute/voting-core/src/models/ranking.rs:94-136 | removing A and then B is removing A and B together |
| Profiles.RemovedKeepsSupport | apps/compute/voting-core/src/models/ranking.rs:112-124 | head-to-head counts among the remaining candidates do not change |
| Profiles.RemovedKeepsCondorcet | apps/compute/voting-core/src/models/ranking.rs:112-124 | a Condorcet winner or loser remains one after others are removed |
| Profiles.SupportSplits | apps/compute/voting-core/src/matrix/pairwise.rs:181-197 | each voter is on exactly one side of each head-to-head contest |
| Reductions.AnyPlanSameVector | apps/compute/voting-core/src/scorer/borda.rs:39-53 | any parallel grouping of the voters gives the same score vector, at full length |
| Reductions.AnyPlanSameMatrix | apps/compute/voting-core/src/matrix/pairwise.rs:181-197 | the same for matrices |
| Matrices.TryNew | apps/compute/voting-core/src/matrix/pairwise.rs:65-107 | each error is reported exactly when it applies and no earlier one does; otherwise the matrix is square, zero on the diagonal, and opposite cells add up to the voters |
| Matrices.SafeSubExact | apps/compute/voting-core/src/matrix/pairwise.rs:128-136 | the 64-bit subtraction is exact exactly when the difference fits an `isize`; with overflow checks it panics at the smallest one and nowhere else |
| Matrices.PairwiseIndexSafe | apps/compute/voting-core/src/matrix/pairwise.rs:186-190 | on every valid profile no cell index can fail exactly when there are fewer than two candidates or all ids are below their number; for different ids, when they are numbered 0..n-1 |
| Matrices.RemovalKeepsNumbersIff | apps/compute/voting-core/src/models/ranking.rs:126-135 | a removal keeps that numbering exactly when it takes the highest-numbered candidates |
| Matrices.MarkPairs | apps/compute/voting-core/src/matrix/pairwise.rs:184-192 | the nested loop marks exactly the pairs in ballot order |
| Matrices.BallotMatrix | apps/compute/voting-core/src/matrix/pairwise.rs:183-193 | one voter's matrix is 1 exactly where the ballot ranks the row before the column |
| Matrices.SumMatrix | apps/compute/voting-core/src/matrix/pairwise.rs:163-174 | the in-place sum is the cell-by-cell sum |
| Matrices.ReducedIsPairwise | apps/compute/voting-core/src/matrix/pairwise.rs:181-197 | for every grouping of the voters the reduced matrix counts head-to-head preferences |
| Matrices.PairwiseFrom | apps/compute/voting-core/src/matrix/pairwise.rs:176-203 | the construction computes those counts |
| Matrices.PairwiseUpholdsInvariants | apps/compute/voting-core/src/matrix/pairwise.rs:10-19 | the unchecked construction satisfies what the checked one verifies |
| Matrices.CondorcetFrom | apps/compute/voting-core/src/matrix/condorcet.rs:53-69 | a cell is set exactly when its row strictly beats its column |
| Matrices.CondorcetCellsSumToOneIffNotTied | apps/compute/voting-core/src/matrix/condorcet.rs:18 | opposite cells of the matrix built are never both set, and sum to one exactly when the head-to-head contest is not tied |
| Matrices.TiedProfileBreaksTheComment | apps/compute/voting-core/src/matrix/condorcet.rs:18 | a valid profile whose matrix has two opposite zeros |
| Matrices.DeciderFindsCondorcetWinner | apps/compute/voting-core/src/decider/condorcet.rs:21-29 | the decider names c exactly when c is the Condorcet winner, and nobody exactly when there is none |
| Matrices.CondorcetWinnerUnique | apps/compute/voting-core/src/decider/condorcet.rs:9-12 | there is at most one Condorcet winner |
| Matrices.CondorcetRule | apps/compute/voting-core/src/scorer/condorcet.rs:29-39 | scorer and decider together elect exactly the Condorcet winner |
| Scorers.IndexOfEntry | apps/compute/voting-core/src/scorer/borda.rs:45 | on a valid profile the lookup of a ballot entry succeeds and is the only place with that rank |
| Scorers.BordaBallot | apps/compute/voting-core/src/scorer/borda.rs:41-49 | one voter's vector gives each candidate n-1 minus its place |
| Scorers.ApprovalBallot | apps/compute/voting-core/src/scorer/approval.rs:48-54 | one voter's vector marks exactly the first Q places |
| Scorers.PluralityBallot | apps/compute/voting-core/src/scorer/plurality.rs:37-42 | one voter's vector marks exactly the first place |
| Scorers.AntiPluralityBallot | apps/compute/voting-core/src/scorer/anti_plurality.rs:37-43 | one voter's vector marks exactly the last place |
| Scorers.ThresholdBallot | apps/compute/voting-core/src/scorer/threshold.rs:40-51 | one voter's table marks each candidate's place, last place excepted |
| Scorers.ReducedIsScoreVector | apps/compute/voting-core/src/scorer/borda.rs:50-53 | for every grouping the reduced vector holds each candidate's points summed over all voters |
| Scorers.ComputeScore | apps/compute/voting-core/src/scorer/approval.rs:31-61 | Borda, approval and anti-plurality scores; approval errs exactly when Q exceeds the candidates |
| Scorers.PluralityScore | apps/compute/voting-core/src/scorer/plurality.rs:24-49 | first places per candidate |
| Scorers.ThresholdScore | apps/compute/voting-core/src/scorer/threshold.rs:29-63 | the place-count table |
| ScoreAlgebra.ApprovalIsPlaceColumns | apps/compute/voting-core/src/scorer/approval.rs:45-60 | approval-Q is the sum of the first Q columns of the place-count table |
| ScoreAlgebra.PluralityIsFirstColumn | apps/compute/voting-core/src/scorer/plurality.rs:34-48 | plurality is the first column |
| ScoreAlgebra.AntiPluralityIsComplement | apps/compute/voting-core/src/scorer/anti_plurality.rs:34-49 | the anti-plurality score is the voters minus the whole table row |
| ScoreAlgebra.BordaIsSumOfApprovals | apps/compute/voting-core/src/scorer/borda.rs:38-55 | Borda is approval-1 plus ... plus approval-(n-1) |
| ScoreAlgebra.BordaIsWeightedPlaces | apps/compute/voting-core/src/scorer/threshold.rs:37-62 | Borda is the table row weighted n-1, ..., 1 |
| ScoreAlgebra.ApprovalTotal | apps/compute/voting-core/src/scorer/approval.rs:45-60 | approval scores total Q per voter |
| ScoreAlgebra.AntiPluralityTotal | apps/compute/voting-core/src/scorer/anti_plurality.rs:34-49 | anti-plurality scores total one per voter |
| ScoreAlgebra.BordaTotal | apps/compute/voting-core/src/scorer/borda.rs:38-55 | Borda scores total V n (n-1) / 2 |
| ScoreAlgebra.BordaIsPairwiseRowSum | apps/compute/voting-core/src/scorer/borda.rs:38-55 | a Borda score is the row sum of the pairwise matrix |
| ScoreAlgebra.BordaIsMeanPlusNet | apps/compute/voting-core/src/scorer/borda.rs:38-55 | twice a Borda score is V (n-1) plus the net margin over everyone |
| ScoreAlgebra.AverageByNet | apps/compute/voting-core/src/voting_rules/elimination/criterion/below_average_score.rs:14-24 | above or below the Borda average means a positive or negative net margin |
| ScoreAlgebra.CondorcetAboveBordaAverage | apps/compute/voting-core/src/scorer/borda.rs:38-55 | an opposed Condorcet winner scores strictly above the Borda average |
| ScoreAlgebra.SomeMemberAboveAverage | apps/compute/voting-core/src/scorer/borda.rs:38-55 | of a group that beats everyone outside it, some member scores strictly above the average |
| ScoreAlgebra.CondorcetLoserBelowBordaAverage | apps/compute/voting-core/src/scorer/borda.rs:38-55 | an opposed Condorcet loser scores strictly below it |
| Deciders.DecideMax | apps/compute/voting-core/src/decider/maxscore.rs:24-43 | exactly the candidates at the highest score, in candidate order |
| Deciders.DecideMin | apps/compute/voting-core/src/decider/minscore.rs:24-43 | exactly the candidates at the lowest score, in candidate order |
| Deciders.MaxWinnersInOrder | apps/compute/voting-core/src/decider/maxscore.rs:24-43 | the winners are exactly the candidates nobody outscores, in the order of the list |
| Deciders.StrictMaxWins | apps/compute/voting-core/src/decider/maxscore.rs:24-43 | a strictly highest score is the only winner |
| Deciders.MaxIsMinOfNegated | apps/compute/voting-core/src/decider/minscore.rs:24-43 | maximising scores and minimising their negatives elect the same list in the same order |
| Deciders.DecideThreshold | apps/compute/voting-core/src/decider/threshold.rs:17-42 | exactly the candidates with a lexicographically greatest row, in candidate order; which rows those are is the next three rows |
| Orders.LexLessIff | apps/compute/voting-core/src/decider/threshold.rs:27 | one vector comes before another exactly when it is smaller, or has ended, at the first place where they differ |
| RuleAgreement.ThresholdWinnerIff | apps/compute/voting-core/src/decider/threshold.rs:17-42 | a candidate wins exactly when nobody is ahead at the first place that tells the two apart |
| RuleAgreement.ThresholdWinnersAhead | apps/compute/voting-core/src/decider/threshold.rs:17-42 | every winner has more voters than any loser at the first place at which their numbers differ, and the same numbers as any other winner |
| RuleAgreement.SimpsonIsMinusMinmax | apps/compute/voting-core/src/scorer/simpson.rs:34-45 | both scorers succeed exactly against an opponent, and their scores differ only in sign |
| RuleAgreement.SimpsonAgreesWithMinmax | apps/compute/voting-core/src/scorer/minmax.rs:31-42 | Simpson and Minmax elect the same list in the same order |
| RuleAgreement.SimpsonPositiveIffCondorcet | apps/compute/voting-core/src/scorer/simpson.rs:34-45 | a Simpson score is positive exactly for the Condorcet winner |
| RuleAgreement.CondorcetWinsSimpsonAndMinmax | apps/compute/voting-core/src/scorer/minmax.rs:31-42 | the Condorcet winner is the only winner of both rules |
| RuleAgreement.MajorityIsCondorcet | apps/compute/voting-core/src/scorer/plurality.rs:34-48 | a strict majority of first places makes a Condorcet winner |
| RuleAgreement.MajoritySurvivesRemoval | apps/compute/voting-core/src/models/ranking.rs:94-136 | a strict majority survives the removal of any other candidates |
| RuleAgreement.MajorityWinsEverywhere | apps/compute/voting-core/src/scorer/plurality.rs:34-48 | a majority candidate is the only winner of Plurality, Condorcet, Simpson and Minmax |
| RuleAgreement.ThresholdWinnersWinPlurality | apps/compute/voting-core/src/decider/threshold.rs:17-42 | every threshold winner is a plurality winner |
| Elimination.EliminatedIffCriterion | apps/compute/voting-core/src/voting_rules/elimination/criterion/below_average_score.rs:14-24 | a round removes exactly the candidates below the average (Nanson) or at the lowest score |
| Elimination.LowestMeetsCriterion | apps/compute/voting-core/src/voting_rules/elimination/criterion/minscore.rs:19-32 | inverse Borda and Hare always find somebody at the lowest score while candidates are left |
| Elimination.Execute | apps/compute/voting-core/src/voting_rules/elimination/rule.rs:100-284 | the loop terminates and ends as the recursion `Run`, whose outcome the next two rows fix by the scores alone |
| Elimination.OutcomeIff | apps/compute/voting-core/src/voting_rules/elimination/rule.rs:100-284 | every run of the three rules names c exactly when c is the last left by the criterion or, in Hare, comes to a majority; it is undecided (Nanson, inverse Borda) or panics (Hare) exactly when some round finds all remaining scores equal |
| Elimination.WinnerOrLevel | apps/compute/voting-core/src/voting_rules/elimination/rule.rs:100-284 | there is no third outcome |
| Elimination.CycleUndecided | apps/compute/voting-core/src/voting_rules/elimination/rule.rs:203-233 | three voters in a cycle leave Nanson and inverse Borda undecided |
| Elimination.WinnerInDominatingGroup | apps/compute/voting-core/src/voting_rules/nanson.rs:14-30 | over any run a unique winner of Nanson or inverse Borda belongs to every group of candidates who each beat everyone outside it |
| Elimination.CondorcetWinnerElectedIffOpposed | apps/compute/voting-core/src/voting_rules/nanson.rs:14-30 | over any run Nanson and inverse Borda elect the Condorcet winner, except that a single candidate gets no winner |
| Elimination.CondorcetLoserNeverElected | apps/compute/voting-core/src/voting_rules/inverse_borda.rs:14-30 | they never elect an opposed Condorcet loser |
| Elimination.WinnerWasActive | apps/compute/voting-core/src/voting_rules/elimination/rule.rs:243-280 | a unique winner is one of the candidates the run began with |
| Elimination.MajorityWinsHare | apps/compute/voting-core/src/voting_rules/elimination/stop/majority_stop.rs:17-26 | a strict majority wins Hare |
| Elimination.HareRoundEmptiesIffAllTied | apps/compute/voting-core/src/voting_rules/hare.rs:14-30 | a Hare round removes everyone exactly when all remaining candidates are tied |
| Elimination.HareNamesOneOrPanics | apps/compute/voting-core/src/scorer/plurality.rs:39 | Hare panics exactly when some round meets such a tie, and otherwise names a candidate |
| Elimination.HareTwoCandidates | apps/compute/voting-core/src/voting_rules/hare.rs:14-30 | between two candidates it panics exactly on a dead heat |
| Elimination.HareDeadHeatPanics | apps/compute/voting-core/src/scorer/plurality.rs:39 | the smallest such input |
| Elimination.HareSafeWithoutEvenSplit | apps/compute/voting-core/src/voting_rules/hare.rs:14-30 | it names a winner when no number from 2 to n divides the number of voters |
| Elimination.HarePanicPossibleIff | apps/compute/voting-core/src/voting_rules/hare.rs:14-30 | for V voters and n candidates some valid profile panics exactly when one of those numbers divides V |
| Elimination.HareElectsLoserIff | apps/compute/voting-core/src/voting_rules/elimination/criterion/minscore.rs:19-32 | Hare elects a Condorcet loser exactly when some round finds it alone ahead of a tie of all others |
| Elimination.HareElectsLoserOfThreeIff | apps/compute/voting-core/src/voting_rules/hare.rs:14-30 | with three candidates this is a condition on the first count |
| Elimination.HareElectsCondorcetLoser | apps/compute/voting-core/src/voting_rules/hare.rs:14-30 | a valid profile of ten voters on which Hare elects the Condorcet loser |
| ComputeService.ParseBallots | apps/compute/compute-service/src/lib.rs:132-189 | fails exactly when some payload is missing; otherwise each ballot of each batch, in order, holds exactly the known names of its payload in their order, scores with their values |
| ComputeService.AllKnownRead | apps/compute/compute-service/src/lib.rs:146-155 | with all names known, entry i of the ballot is the i-th name with its number |
| ComputeService.AllKnownScoresRead | apps/compute/compute-service/src/lib.rs:169-181 | the same for scores, each name with its own value |
| ComputeService.CandidateMap | apps/compute/compute-service/src/lib.rs:206-211 | the map holds every name, a repeated one with its last position |
| ComputeService.RankingsArrive | apps/compute/compute-service/src/lib.rs:132-189 | rankings of known names are the voters of the accepted profile, in order, choice by choice |
| Profiles.SimpleInOrder | apps/compute/voting-core/src/models/ranking.rs:151-208 | every simple ballot is one voter, in order; other ballots are passed over |
| ComputeService.ParsedFromMap | apps/compute/compute-service/src/lib.rs:146-166 | every entry carries the number the candidate map gives its name |
| ComputeService.AcceptedIsValidIff | apps/compute/voting-core/src/models/ranking.rs:188-207 | on an accepted profile every lookup of a ballot entry succeeds exactly when ballots stay within the first k names, and then each ballot ranks every active candidate once (pigeonhole) |
| ComputeService.FullLengthIsValid | apps/compute/voting-core/src/models/ranking.rs:188-207 | full-length ballots are always safe and force distinct names |
| ComputeService.ShortBallotBreaksLookup | apps/compute/voting-core/src/models/ranking.rs:181-207 | an accepted short ballot with an entry that cannot be found |
| ComputeService.BuildProfile | apps/compute/compute-service/src/lib.rs:204-216 | succeeds exactly when no payload is missing and some profile can be accepted, and then with those guarantees |
| ElectionLifecycle.Store.Act | apps/backend/internal/elections/actions.go:37-250 | the tables after an action, and the code returned, that of a failed open-time check included; every refusal leaves the tables unchanged |
| ElectionLifecycle.Store.AutoClose | apps/backend/internal/worker/scheduler.go:61-116 | the tables after closing the due elections, each with one queued job |
| ElectionLifecycle.Store.AutoPublish | apps/backend/internal/worker/scheduler.go:156-211 | the tables after publishing the due elections that have results |
| ElectionLifecycle.AutoCloseCloses | apps/backend/internal/worker/scheduler.go:29-87 | from every reachable state an auto-close closes each due election, paused ones included, and queues its one job; nothing else changes |
| ElectionLifecycle.AutoPublishPublishes | apps/backend/internal/worker/scheduler.go:126-211 | from every reachable state an auto-publish publishes each due election and stamps its latest version only; nothing else changes |
| ElectionLifecycle.StampTwice | apps/backend/internal/worker/scheduler.go:165-166 | the first stamp of a version stays |
| ElectionLifecycle.JobStep | apps/backend/internal/jobs/runner_claim.go:13-60 | in a step a job is claimed exactly if it is first in line, ended by its own message, and otherwise left alone |
| ElectionLifecycle.ElectionsBegin | apps/backend/internal/elections/create.go:154-190 | a new election is a draft |
| ElectionLifecycle.Store.ClaimNext | apps/backend/internal/jobs/runner_claim.go:25-45 | the oldest queued job nobody else has locked starts running |
| ElectionLifecycle.Store.ApplyResult | apps/backend/internal/worker/election_tally_result.go:60-114 | a new version, closed to results_ready, job done |
| ElectionLifecycle.StepKeepsInv | apps/backend/internal/worker/election_tally_result.go:60-114 | every event keeps the invariant of the next row |
| ElectionLifecycle.AlwaysInv | apps/backend/internal/elections/actions.go:149-202 | in every reachable state: one tally job from closing on and none before, claimed at most once; versions are 1..k; results exist exactly from results_ready on; published has exactly one stamped version |
| ElectionLifecycle.ActionSucceedsIff | apps/backend/internal/elections/actions.go:65-145 | in every reachable state an action succeeds exactly when its owner asks and the status allows it (publish only from results_ready); not_found, no_results and a failed check each have their exact condition; a refusal changes nothing |
| ElectionLifecycle.ActionDoes | apps/backend/internal/elections/other.go:67-84 | the status each successful action leads to, the job on closing, the stamp on publishing, and that nothing else changes |
| ElectionLifecycle.StatusMovesForward | apps/backend/internal/elections/other.go:67-84 | from every reachable state a step makes only the listed moves; results come only after closing, publication only after results |
| ElectionLifecycle.NeverBackwards | apps/backend/internal/elections/other.go:67-84 | over any run no election returns to an earlier stage or changes owner |
| ElectionLifecycle.PublishFromClosedIsRolledBack | apps/backend/internal/elections/actions.go:174-202 | publishing a closed election always ends in no_results and changes nothing |
| ElectionLifecycle.PublishStampsLatest | apps/backend/internal/elections/actions.go:184-196 | publishing stamps the version readers then get |
| ElectionLifecycle.ReadersSeePublishedIffNotRedelivered | apps/backend/internal/results/service.go:99-106 | readers keep getting a stamped version exactly as long as no result message is repeated |
| ElectionLifecycle.RedeliveryHidesPublishedVersion | apps/backend/internal/worker/election_tally_result.go:69-96 | a run from an empty database that publishes any election, and one more message that hides the published version |
| Sessions.AuthStore.IssueAccessToken | apps/backend/internal/auth/tokens.go:37-63 | adds one access token of the session |
| Sessions.AuthStore.IssueTokenPair | apps/backend/internal/auth/tokens.go:65-101 | adds one session and one access token |
| Sessions.AuthStore.Register | apps/backend/internal/auth/register.go:35-66 | the tables after registration; refusals change nothing |
| Sessions.AuthStore.Login | apps/backend/internal/auth/login.go:61-125 | the tables after login; refusals change nothing, also after the old session was replaced |
| Sessions.AuthStore.Refresh | apps/backend/internal/auth/tokens.go:113-189 | the tables after rotation; refusals change nothing |
| Sessions.AuthStore.Logout | apps/backend/internal/auth/logout.go:29-53 | the token is gone and its session revoked |
| Sessions.LoginAnswers | apps/backend/internal/auth/login.go:30-107 | a login succeeds exactly if the user exists, the password is right, no session is live or replacement was asked for, and the invitation is accepted; each refusal has its exact condition and changes nothing |
| Sessions.LoginWithoutReplacing | apps/backend/internal/auth/login.go:62-79 | in every reachable state, without replacement, the right password gets in exactly if none of the user's refresh tokens works |
| Sessions.RegistrationAnswers | apps/backend/internal/auth/register.go:35-61 | a registration succeeds exactly if the invitation is accepted and the address is free, and adds the one user |
| Sessions.LogoutAnswers | apps/backend/internal/auth/logout.go:29-53 | a logout is accepted exactly for a token in the table |
| Sessions.OthersUndisturbed | apps/backend/internal/auth/login.go:81-102 | no step touches the sessions or tokens of anybody but the user it is about |
| Sessions.OneSessionOneToken | apps/backend/internal/auth/verify.go:20-36 | in every reachable state a user has at most one live session and at most one access token that verifies |
| Sessions.LoginTokensWork | apps/backend/internal/auth/login.go:125 | the tokens of a new login work for exactly their lifetimes if nothing else happens |
| Sessions.RegistrationTokensWork | apps/backend/internal/auth/register.go:63-66 | so do those of a registration |
| Sessions.RefreshedTokensWork | apps/backend/internal/auth/tokens.go:154-189 | so do those of a refresh, with new lifetimes, for the user of the session |
| Sessions.RefreshAcceptsIff | apps/backend/internal/auth/tokens.go:135-152 | a refresh succeeds exactly with the current token of a live session |
| Sessions.DeadRefreshStaysDead | apps/backend/internal/auth/tokens.go:150-175 | an issued refresh token once refused is refused over every later run |
| Sessions.DeadAccessStaysDead | apps/backend/internal/auth/verify.go:20-36 | the same for access tokens |
| Sessions.UsedRefreshIsSpent | apps/backend/internal/auth/tokens.go:154-184 | a used refresh token, and the access token beside it, never work again |
| Sessions.LogoutEndsSession | apps/backend/internal/auth/logout.go:29-53 | logout ends both tokens of the session for good |
| Sessions.LoginEndsEarlierTokens | apps/backend/internal/auth/login.go:81-102 | a login ends every earlier token of the user for good |
| Submission.AlwaysInv | apps/backend/internal/ballots/submit.go:41-172 | in every reachable state every success and every cached answer is backed by an accepted row, won under that very key |
| Submission.SuccessesAgree | apps/backend/internal/ballots/submit.go:41-172 | two successful answers to one voter in one election name the same accepted ballot |
| Submission.AcceptedBallotsAreFinal | apps/backend/internal/ballots/submit.go:136-146 | over any run an accepted ballot never changes |
| Submission.CacheNamesAcceptedRows | apps/backend/internal/ballots/idempotency.go:9-39 | a cached answer names the accepted row of its voter and election |
| Submission.SuccessStoresOwnBallot | apps/backend/internal/ballots/submit.go:41-43 | with one ballot per key, a success means one's own ballot is stored |
| Submission.ReusedKeyKeepsFirstBallot | apps/backend/internal/ballots/submit.go:41-43 | with a reused key it need not be |
| Submission.LockExcludesUnlessExpiredWhileHeld | apps/backend/internal/ballots/submit.go:45-68 | over any run in which the lock never expires under a holder at most one request works under a key |
| Submission.SecondHolderPossibleIffHeld | apps/backend/internal/ballots/submit.go:45-68 | in such a reachable state an expiry can lead to two holders exactly when the lock is held |
| Submission.ExpiryAdmitsSecond | apps/backend/internal/ballots/submit.go:48 | the shortest such run |
| Submission.UndisturbedSubmission | apps/backend/internal/ballots/submit.go:41-172 | with or without Redis, a request nobody interferes with stores its ballot, caches the answer and says so exactly if the voter has no accepted ballot, and leaves the lock as it found it |
| Submission.LeavingFreesKey | apps/backend/internal/ballots/submit.go:50-67 | a holder that leaves frees its key, and the next request under it can write at once |
| Submission.RejectedCanRetry | apps/backend/internal/ballots/submit.go:50-67 | so a rejected ballot can be submitted again under the same key right away |
| Submission.WaiterGetsHoldersAnswer | apps/backend/internal/ballots/submit.go:52-57 | a request waiting for the lock gets the holder's answer once it is cached |
| Submission.FailuresLead | apps/backend/internal/ballots/submit.go:41-67 | what each failure leads to; none answers from the cache, stores anything or frees the lock |
| Decimal.AtoiItoa | apps/backend/internal/datasets/tabular_formats.go:336 | parsing undoes printing on every machine integer |
| Decimal.ItoaBuffer | apps/backend/internal/datasets/other.go:59-80 | the buffer holds the decimal form, except for the smallest integer |
| Text.FieldsOfJoin | apps/backend/internal/datasets/external_formats.go:327-329 | splitting undoes joining for non-empty words without separators |
| Text.FieldsSplit | apps/backend/internal/datasets/external_formats.go:327-329 | any separator ends a field, and a string without one is a single field |
| Text.TrimIs | apps/backend/internal/datasets/external_formats.go:323 | only white space at the two ends is trimmed off |
| Printers.ParseDelimitedIds | apps/backend/internal/datasets/external_formats.go:322-344 | trimmed, non-empty, first occurrences, in order |
| Printers.DistinctInOrder | apps/backend/internal/datasets/external_formats.go:331-342 | the ids kept are exactly the first occurrences of the non-empty trimmed parts, in order |
| Printers.IdListRoundTripIff | apps/backend/internal/datasets/external_formats.go:322-344 | a joined list reads back exactly when its ids are clean and distinct |
| Printers.ParseTabularScores | apps/backend/internal/datasets/tabular_formats.go:307-346 | later entries win, unreadable ones are skipped |
| Printers.EntryReadIff | apps/backend/internal/datasets/tabular_formats.go:313-343 | a part is read exactly as key, first equals sign or else first colon, and number |
| Printers.LastEntryWins | apps/backend/internal/datasets/tabular_formats.go:307-346 | a key has the value of the last part read for it |
| Printers.ScoresExportCell | apps/backend/internal/datasets/export.go:161-193 | listed candidates first, then the other keys in text order; the cell reads back exactly when all keys are clean |
| Printers.ListedInOrder | apps/backend/internal/datasets/export.go:166-179 | the cell starts with exactly the listed candidates that have a score, in the order of the list |
| Printers.ExtraOrderUnique | apps/backend/internal/datasets/export.go:180-186 | the cell does not depend on the map's iteration order |
| Printers.ScoreCellRoundTripIff | apps/backend/internal/datasets/export.go:161-193 | a score cell reads back as the same map exactly when its keys are clean |
| Printers.XlsxColumnName | apps/backend/internal/datasets/export.go:312-325 | the loop prints the bijective base-26 numeral |
| Printers.NumberOfColumn | apps/backend/internal/datasets/export.go:312-325 | a column's name determines its number |
| Printers.ColumnOfNumber | apps/backend/internal/datasets/export.go:312-325 | every non-empty A-Z string names a column |
| Printers.ColumnNamesInjective | apps/backend/internal/datasets/export.go:312-325 | two numbers share a name only if equal or both at most one |
| Inversions.NeighbourSwap | apps/backend/internal/datasets/generate.go:51 | swapping different neighbours changes the inversion count by exactly one |
| Inversions.SwapStep | apps/backend/internal/datasets/generate.go:49-52 | one swap changes the pairs ranked against the base by exactly one |
| Random.BeforeUndoesAfter | apps/backend/internal/datasets/other.go:34-37 | the generator step loses no state |
| Random.AfterUndoesBefore | apps/backend/internal/datasets/other.go:34-37 | and reaches every state: it is a bijection on 64-bit words |
| Random.AfterLowBits | apps/backend/internal/datasets/other.go:34-37 | modulo 4 the step subtracts one, so the lowest bit flips |
| Random.LowBitsCountDraws | apps/backend/internal/datasets/other.go:34-37 | after any number of draws the two low bits only count them |
| Random.LowBitsRepeatIff | apps/backend/internal/datasets/other.go:34-37 | from every state the b lowest bits repeat after k draws if and only if 2^b divides k, so the full period is 2^64 |
| Random.LowBitsOneAgo | apps/backend/internal/datasets/other.go:34-37 | states whose low bits agree after a draw agreed before it |
| Shuffling.Shuffle | apps/backend/internal/datasets/other.go:38-46 | the order the draws from the current state deal, and the state left behind |
| Shuffling.DealtRearranges | apps/backend/internal/datasets/other.go:38-46 | what is dealt is a rearrangement |
| Shuffling.LastDraws | apps/backend/internal/datasets/other.go:41-44 | for every state the last draw is the parity of the state counted on, and repeats a bit of the draw among four |
| Shuffling.NeverDealt | apps/backend/internal/datasets/other.go:41-44 | from four items on an order that breaks this is dealt from no state |
| Shuffling.EveryOrderDealtIffFew | apps/backend/internal/datasets/other.go:41-44 | every order is dealt from some state exactly up to three items |
| Shuffling.PickSubset | apps/backend/internal/datasets/other.go:47-58 | the subset and the state left behind |
| Shuffling.SubsetIsDistinct | apps/backend/internal/datasets/other.go:47-58 | the subset holds distinct items of the list |
| Shuffling.EverySubsetIfFew | apps/backend/internal/datasets/other.go:47-58 | up to three items every choice in every order can be drawn |
| Preferences.ReverseStrings | apps/backend/internal/datasets/generate.go:33-39 | the list backwards |
| Preferences.NoisyOrder | apps/backend/internal/datasets/generate.go:41-54 | the order after the drawn swaps and the state left behind; at most that many pairs reversed |
| Preferences.NoiseIsBounded | apps/backend/internal/datasets/generate.go:49-52 | for every state the bound on reversed pairs, with fixed parity |
| Preferences.BuildPreferenceOrder | apps/backend/internal/datasets/generate.go:56-70 | a voter's order and the state left behind |
| Preferences.PreferenceRearranges | apps/backend/internal/datasets/generate.go:56-70 | every order ranks all candidates |
| Preferences.ConsensusIsNear | apps/backend/internal/datasets/generate.go:60-61 | a consensus voter is within three pairs of the common order |
| Preferences.ConsensusSwaps | apps/backend/internal/datasets/generate.go:60-61 | one, two and three swaps all occur |
| Preferences.EverySwapDrawn | apps/backend/internal/datasets/generate.go:50-51 | any two neighbours can be the ones swapped |
| Preferences.PolarizedByParity | apps/backend/internal/datasets/generate.go:62-66 | an odd state gives the common order with two swaps, an even one the opposite order with one |
| Preferences.PolarizedLeavesOdd | apps/backend/internal/datasets/generate.go:62-66 | every polarized voter leaves an odd state |
| Preferences.PolarizedDistance | apps/backend/internal/datasets/generate.go:62-66 | so the pairs reversed are none or two from the common order, exactly one from the other |
| ScoreLevels.ScoreLevels | apps/backend/internal/datasets/generate.go:72-82 | where the loop stands after any number of passes, with machine arithmetic |
| ScoreLevels.LevelsRightIff | apps/backend/internal/datasets/generate.go:72-82 | for all limits: exactly when the loop has ended with the levels promised: there is room, the value past the last one fits, and there were enough passes |
| ScoreLevels.ClimbableIff | apps/backend/internal/datasets/validate.go:103-117 | for validated limits whose range is an `int` that means max + step and the number of levels fit |
| ScoreLevels.NeverEnds | apps/backend/internal/datasets/generate.go:78 | if no `int` above max differs from min by a multiple of g, the largest power of two in the step, no number of passes ends the loop |
| ScoreLevels.EndsWithin | apps/backend/internal/datasets/generate.go:78 | if there is such an `int`, some number of passes ends it |
| ScoreLevels.LevelsEndIff | apps/backend/internal/datasets/generate.go:78 | so for all limits with room the loop ends if and only if there is one |
| ScoreLevels.ThreeFates | apps/backend/internal/datasets/generate.go:72-82 | for a whole number of steps: right levels if max + step fits, wrong ones if only max + g does, no end otherwise |
| ScoreLevels.TwoLevelsNeverEnd | apps/backend/internal/datasets/generate.go:78 | the case INT_MAX - 1 to INT_MAX: it never ends |
| ScoreLevels.WideStepNeverEnds | apps/backend/internal/datasets/generate.go:78 | the case 0 to 2^62 in steps of 2^62: nor does it |
| ScoreLevels.WideStepEndsWrong | apps/backend/internal/datasets/generate.go:78 | the case -1 to 2^62 in steps of 2^62 + 1: it ends, with these wrong levels |
| ScoreLevels.LevelsFall | apps/backend/internal/datasets/generate.go:95-102 | the level index stays in range, never rises, is top at the first place and bottom at the last |
| ScoreLevels.LevelIndexIff | apps/backend/internal/datasets/generate.go:97 | a place is below the top by its share of the levels, rounded down |
| ScoreLevels.LevelsSpread | apps/backend/internal/datasets/generate.go:95-102 | the steps between neighbours differ by at most one |
| ScoreLevels.ScoresFromOrder | apps/backend/internal/datasets/generate.go:84-105 | every candidate of the order gets its level |
| ScoreLevels.ScoresFollowOrder | apps/backend/internal/datasets/generate.go:84-105 | model-based scores never rise down the order, from top level to bottom level |
| Generator.ValidateCandidates | apps/backend/internal/datasets/validate.go:18-41 | the first problem of the first bad candidate |
| Generator.CandidatesFineIff | apps/backend/internal/datasets/validate.go:18-41 | no problem exactly when there are candidates, all named, with different ids |
| Generator.FirstProblemIs | apps/backend/internal/datasets/validate.go:18-41 | the problem reported is that of the first candidate who has one |
| Generator.LimitsFineIff | apps/backend/internal/datasets/validate.go:65-121 | which limits pass validation, in true numbers, and which problem score limits are refused for |
| Generator.RequestFineIff | apps/backend/internal/datasets/generate.go:132-180 | which requests are valid |
| Generator.EveryNumberApproved | apps/backend/internal/datasets/generate.go:249-260 | voters approve any number from one to the limit, and no other |
| Generator.GenerateBallot | apps/backend/internal/datasets/generate.go:247-289 | the ballot the current state determines, and the state left behind |
| Generator.BallotLoop | apps/backend/internal/datasets/generate.go:241-306 | one ballot per voter, in order, in full batches of 1000 but the last, and the state left behind |
| Generator.Generate | apps/backend/internal/datasets/generate.go:132-306 | the outcome the request determines, given the capacity the allocator grants: refusal, panic, a loop still running, or the dataset |
| Generator.VoterRefsDistinct | apps/backend/internal/datasets/generate.go:244 | voter references never collide |
| Generator.VoterRefNumber | apps/backend/internal/datasets/generate.go:244 | voter i is called v and the decimal number i + 1 |
| Datasets.SameRequestSameDataset | apps/backend/internal/datasets/generate.go:182-217 | the same request and seed write the same ballots |
| Datasets.OutcomeExists | apps/backend/internal/datasets/generate.go:132-306 | every request has an outcome: the statements about outcomes are about something |
| Datasets.EveryCommonOrderIffFew | apps/backend/internal/datasets/generate.go:219 | every common order comes from some seed exactly below four candidates |
| Datasets.PolesAreReversed | apps/backend/internal/datasets/generate.go:220 | the other pole is the common order backwards |
| Datasets.EveryLevelDrawn | apps/backend/internal/datasets/generate.go:278-284 | in the uniform model every promised level can be drawn |
| Datasets.VoteIsLegal | apps/backend/internal/datasets/generate.go:247-289 | from every generator state a sound setup gives a legal ballot |
| Datasets.LoopEndsIff | apps/backend/internal/datasets/generate.go:78 | for validated limits of any width, with room, the loop ends if and only if max + g fits |
| Datasets.NeverReturnsIff | apps/backend/internal/datasets/generate.go:233-239 | generation still runs after every number of passes if and only if it is about scores, finds room, and max + g does not fit |
| Datasets.LevelsFitIff | apps/backend/internal/datasets/generate.go:233-239 | for a range that is an `int` the levels are right exactly when max + step fits, there is room, and there were enough passes |
| Datasets.DrawableIff | apps/backend/internal/datasets/generate.go:238-239 | with room made, there is something to draw from exactly when the range is an `int`, and then it is all levels promised |
| Datasets.UnscoredIsWritten | apps/backend/internal/datasets/generate.go:178-306 | every valid approval or ranking request is written, every ballot legal |
| Datasets.UniformScoresIff | apps/backend/internal/datasets/generate.go:278-284 | a valid uniform score request is written exactly when the range is an `int`, there is room and the loop has ended; then every ballot is legal |
| Datasets.ModelScoresLegalIff | apps/backend/internal/datasets/generate.go:84-105 | a valid consensus or polarized score request is written with only legal ballots if and only if its limits can be climbed and there were enough passes |
| Datasets.LegalDatasetIff | apps/backend/internal/datasets/generate.go:132-306 | a valid request can come to a dataset of legal ballots if and only if its limits serve its format and model |
| Datasets.IllegalDatasetIff | apps/backend/internal/datasets/generate.go:132-306 | it can come to one with an illegal ballot if and only if it is a model-based score request with room whose loop ends and whose limits cannot be climbed |
| Datasets.WideRange | apps/backend/internal/datasets/validate.go:112-117 | a range too wide for an `int` passes validation; it panics if and only if the step does not make up the difference to 2^64, or scores are uniform and the loop has ended |
| Datasets.IllegalScoreWritten | apps/backend/internal/datasets/generate.go:72-105 | a valid request for which an illegal ballot is written |
| Datasets.LaterVotersShareOnePole | apps/backend/internal/datasets/generate.go:241-289 | all polarized voters after the first come from one pole, which one depending on the format |
| Datasets.LaterVotersAreClose | apps/backend/internal/datasets/generate.go:241-289 | how many pairs they reverse |
| Datasets.PolarizedDatasetHasOnePole | apps/backend/internal/datasets/generate.go:217-289 | so does every ballot of the dataset after the first |
| Datasets.FirstVotersPole | apps/backend/internal/datasets/generate.go:217-289 | the first voter's side is fixed by the parities of the seed and the number of candidates |
| Datasets.ConsensusDatasetIsNear | apps/backend/internal/datasets/generate.go:241-289 | every ballot of a consensus dataset follows an order within three pairs of the common one |
| Datasets.UniformLastDraw | apps/backend/internal/datasets/other.go:41-44 | in uniform ranking datasets each voter's last draw counts the draws so far |
| Datasets.ThreeCandidatesShareACoin | apps/backend/internal/datasets/other.go:41-44 | with three candidates all voters' orders are among the same three |
| Datasets.SeedTossesTheCoin | apps/backend/internal/datasets/generate.go:217-276 | the seed's parity says which three, for every ballot of the dataset |
| Datasets.UniformScoresRepeatIff | apps/backend/internal/datasets/generate.go:278-284 | with 2^b levels two voters of a uniform score dataset submit the same scores if and only if 2^b divides the draws between them |
| Datasets.UniformScoresCycle | apps/backend/internal/datasets/generate.go:278-284 | so ballot i is ballot i mod 2^b: at most 2^b different ones |
| Datasets.EverybodyScoresAlikeIff | apps/backend/internal/datasets/generate.go:278-284 | everybody submits the same scores if and only if 2^b divides the number of candidates |

## Left out

- `Submit` is modelled on values, as separate steps of a transition system: its local variables and deferred calls appear as stages.
- Submission.AlwaysInv: whether the ballot passes validation is left open (both outcomes are steps), so "no ballot after the election closed" is not claimed; the status is read outside the writing transaction.
- ElectionLifecycle.AlwaysInv: nothing is said about a finished job staying finished, because error and done updates are not guarded by the current status; the open-time configuration checks are an outcome, the code of the failed one if any.
- Sessions.OneSessionOneToken: password, invitation and e-mail uniqueness outcomes are parameters.
- Generator.Generate: name, format and generation-model normalisation and the choice of a random seed are outside; the level loop is given a number of passes and the largest capacity the allocator grants; memory running out while a slice grows is not captured.
- ScoreLevels.ScoresFromOrder: the product of place and level index is not wrapped; it would need more levels and candidates than memory holds.
- Shuffling.EveryOrderDealtIffFew: the draws determine the order and every order has draws (`DrawsDetermined`, `EveryOrderIsDealt`); how many orders are dealt from some state for four or more items is not counted.
- Scorers.ComputeScore: machine overflow of score sums is not modelled.
- Elimination.Execute: metrics and protocol steps are not modelled.
- Copeland, q-Paretian, scoring and two-stage rules and adaptors; Coombs, which is not registered.
- Approval and scoring profiles, whose removal rebuilds the active list differently.
- Experiment jobs, Kafka, gRPC, TLS, SMTP, HTTP handlers, rate limits, configuration and drivers.
- CSV, XLSX and zip libraries, character-set repair, password hashing, regular expressions.
- Audit log, notifications, list and get queries, and the React front end.
