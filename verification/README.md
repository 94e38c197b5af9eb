# Verified model of the league server's hardest rules

This project models the parts of the server where a mistake is expensive, and proves what they
promise for every input and every run:

- **Auctions.** Offers and their rounding (`Offers`), the bid policy as a state machine over a
  bid's life (`BidPolicy`, `BidRuns`) and exactly what it accepts (`BidRules`), resolution with its
  inspection, de-duplication, ranking and price (`Resolution`, `ResolutionProperties`, `Pricing`,
  and in plain figures `ResolutionRules`), what holds from the first bid to the award
  (`AuctionAgreement`), and the weekly window in a time zone with clock changes (`CreationWindow`,
  `WindowRules`).
- **Operations that rewrite data.** The temporary-trigger fence (`Store`, `WriteFence`), the removal
  of teams and its guarded compensation among other writers (`TeamRemoval`, `TeamRemovalDatabase`,
  `TeamRemovalRuns`, `TeamRemovalEffects`), the reconciliation of league authority
  (`AuthorityPreview`, `AuthorityReconciliation`, `AuthorityDatabase`, `AuthorityProperties`,
  `AuthorityEffects`), and the two league resets with their restores (`LeagueTables`,
  `GuidedReset`, `GuidedResetDatabase`, `GuidedResetProperties`, `GuidedResetEffects`, `GoonReset`,
  `GoonResetDatabase`, `GoonResetEffects`).
- **Running state.** The scheduler with its job runners as interleaved steps (`Jobs`,
  `MatchupScheduler`), session expiry over runs (`Sessions`), and the UTF-16 scan of passwords
  (`Passwords`).

Code that computes is modelled by functions. Code that changes state is a class or a method with a
loop, whose contract ties its result to a function of the old state; what the program promises is
then proved about that function. The modules named `Rules` and `Effects` state what each operation
decides and writes in literal figures and columns, without the functions it is computed with.
`Collections` holds the shared lists, sorting and options, `RowChanges` what it is for a row to change.

Findings, each with its exact condition and an input below:

- `smallestValidTotalCents` is the least total on the whole-hundred grid, not the least total a team
  may submit: for 1.25 a year over two years it answers 3.00 where 2.50 is accepted. The requests
  it answers with the least are told apart by the term and the last two digits of the AAV.
- The edit path drops the joining minimum, so an accepted edit can be skipped at resolution as if
  its value were malformed.
- A write fence is sound exactly when no reviewed update lists the id or the league column.
- A team removal can be compensated straight away exactly when every captured contract year was
  current or future. Once a completed year was captured, every later rollback is refused too, as
  long as nobody changes that year.
- A guided reset is restored exactly when the season it keeps was stored first; otherwise the
  archive comes back in another order and the restore refuses its own result.
- In the one-off reset, one readiness operation without a reminder job keeps every job of the
  league, because `NOT IN` over a list with a NULL is never true.
- A closing time that the clock skips can be shifted past the next opening, and around a Monday
  midnight that the clock repeats the window can miss the present.
- A rollover can start beside a finalization exactly when finalizations are called from outside
  the scheduler, since a skipped finalization is no failure. The program calls none from outside
  (`src/bootstrap/createCompatibilityRuntime.js:501-507`).
- Eleven hours and fifty-five minutes is the longest gap that never idles a session out.
- The password scan lets an unpaired high surrogate in last position through, and the limit of 1024
  bytes can never be the reason for a refusal.

## Model

| member | source | states |
|---|---|---|
| Offers.RoundingInverse | src/domain/auctions/auctionResolutionPolicy.js:72-85 | The rounded AAV reaches a required one exactly when twice the total is at least (2r - 1) times the term |
| Offers.AavAndTermDetermineTotal | src/domain/auctions/auctionResolutionPolicy.js:87-109 | On valid offers the rounded AAV and the term determine the total |
| Offers.SmallestValidTotalCents | src/domain/auctions/auctionResolutionPolicy.js:119-140 | The total is the least on the legacy grid that reaches the AAV; it fails exactly on malformed requests and when every such total is unsafe |
| Offers.SmallestAmongSubmittable | src/domain/auctions/auctionResolutionPolicy.js:119-140 | That total is least over everything submittable exactly for the stated terms, low AAVs and remainders of the AAV, those on which rounding to whole hundreds skips nothing |
| Offers.SmallestIsNotAlwaysSmallest | src/domain/auctions/auctionResolutionPolicy.js:119-140 | A request whose answer, 3.00, is beaten by a submittable 2.50 |
| Offers.AcceptedOfferIsSubmittable | src/domain/auctions/auctionBidPolicy.js:101-127 | What creation, join or edit accepts passes the resolution's value check with the same AAV |
| Offers.ResolutionMinimumAfterEachPath | src/domain/auctions/auctionResolutionPolicy.js:111-117 | Openings and joins meet the resolution minimum; an edit meets it exactly when the bid started the auction or the offer would pass as a join |
| Offers.EditBelowResolutionMinimum | src/domain/auctions/auctionBidPolicy.js:417-422 | An edit to 1.00 is accepted and lies below the resolution minimum |
| BidPolicy.OnlyTheFloorCanBeMalformed | src/domain/auctions/auctionBidPolicy.js:310-329 | A floor comparison never fails on the submitted bid, only on the stored floor; what the floor decides is in BidRules |
| BidRules.ValidMeansWellFormed | src/domain/auctions/auctionBidPolicy.js:101-127 | Offers pass exactly with one to three years, quarters of a dollar from a dollar on, a safe total and, to join, 1.50, 3.00 or 5.00 in all |
| BidRules.KindIsUnique | src/domain/auctions/auctionBidPolicy.js:212-308 | Each kind of auction is recognized by its stated columns, and an auction is of one kind at most |
| BidRules.NoKindNoBid | src/domain/auctions/auctionBidPolicy.js:212-308 | An auction of no kind accepts no command |
| BidRules.ClearsExactly | src/domain/auctions/auctionBidPolicy.js:310-329 | In a restricted auction an offer must have a higher AAV than the minimum, or the same over a longer term; in a fallback it may also equal it |
| BidRules.SubmissionAcceptedExactly | src/domain/auctions/auctionBidPolicy.js:331-416 | A submission is accepted exactly when authorized, timely, well formed and clear of the floor, and leaves the stated bid |
| BidRules.EditAcceptedExactly | src/domain/auctions/auctionBidPolicy.js:417-455 | An edit is accepted exactly with the right bid and version, a clear offer, an edit left and 75 minutes since the last one, and leaves the stated bid |
| BidRules.RefusedForCause | src/domain/auctions/auctionBidPolicy.js:331-455 | A refused command really has the cause that its error names |
| BidRuns.RunIsCoherent | src/domain/auctions/auctionBidPolicy.js:331-455 | Over every accepted run version is one more than the edit count, the first time never changes, times are a cooldown apart inside the window, and both lowest-offered fields are minima of the run |
| BidRuns.EditsAreLimited | src/domain/auctions/auctionBidPolicy.js:423-433 | A starter is edited at most twice over its life, every other bid once |
| Pricing.OwnOffers | src/domain/auctions/actualWinningOfferPolicy.js:22-23 | The kept history is the winner's own events, in order |
| Pricing.KeepEligible | src/domain/auctions/actualWinningOfferPolicy.js:32-52 | The list of eligible offers is the offers that qualify, in order |
| Pricing.SelectActualWinningOffer | src/domain/auctions/actualWinningOfferPolicy.js:14-60 | The price is an eligible offer no other eligible offer undercuts in AAV, term and time |
| Pricing.EligibleTiesAreEqual | src/domain/auctions/actualWinningOfferPolicy.js:53-57 | Offers that tie in the sort are the same offer |
| Pricing.PriceIsLeastEligible | src/domain/auctions/actualWinningOfferPolicy.js:53-59 | There is a price exactly when an offer is eligible, and it is the one least eligible offer |
| Pricing.PriceIsSound | src/domain/auctions/actualWinningOfferPolicy.js:14-60 | The price was made by this bid in time or is its current offer, costs no more AAV, meets the floor and beats the competitor |
| Pricing.NoCheaperWinningOffer | src/domain/auctions/actualWinningOfferPolicy.js:32-59 | No offer the winner made in time that would also have won is cheaper than the price |
| Pricing.PricingFailsOnlyForLateBids | src/domain/auctions/actualWinningOfferPolicy.js:40-58 | Pricing the best bid throws exactly when it was first submitted after the deadline |
| Pricing.PriceIgnoresHistoryOrder | src/domain/auctions/actualWinningOfferPolicy.js:22-59 | A permuted history gives the same price |
| Resolution.InspectAll | src/domain/auctions/auctionResolutionPolicy.js:346-348 | The valid bids and the skipped entries are those inspection yields, in order |
| Resolution.SeparateDuplicates | src/domain/auctions/auctionResolutionPolicy.js:349-371 | Bids whose id or team occurs twice are set aside, the others kept |
| Resolution.EvaluateAuctionResolution | src/domain/auctions/auctionResolutionPolicy.js:302-428 | The loops yield the specified outcome, whichever branch is taken; ResolutionRules states what it is in plain figures |
| ResolutionProperties.DuplicateMeansShared | src/domain/auctions/auctionResolutionPolicy.js:349-361 | A bid is set aside exactly when another valid bid shares its id or its team |
| ResolutionProperties.EligibleAreDistinct | src/domain/auctions/auctionResolutionPolicy.js:359-371 | No id and no team occurs twice among the ranked bids |
| ResolutionProperties.RankingIsStrict | src/domain/auctions/auctionResolutionPolicy.js:278-285 | The ranking permutes the eligible bids and each bid strictly beats every later one |
| ResolutionProperties.EveryBidIsRankedOrSkippedOnce | src/domain/auctions/auctionResolutionPolicy.js:346-390 | Every input bid is ranked or skipped exactly once, with the fate its row and the clashes give it |
| ResolutionProperties.OutcomeIgnoresOrder | src/domain/auctions/auctionResolutionPolicy.js:346-394 | Permuting bids and history changes nothing in the outcome |
| ResolutionProperties.AwardIsStable | src/domain/auctions/auctionResolutionPolicy.js:388-427 | Charged the price, the winner still beats every other ranked bid, and pays no more AAV than it submitted |
| ResolutionProperties.PricingThrowsOnlyForLateWinners | src/domain/auctions/auctionResolutionPolicy.js:391-394 | A resolution throws in pricing exactly when a due auction's best bid was first submitted late |
| ResolutionRules.RanksFollowTheOffers | src/domain/auctions/auctionResolutionPolicy.js:278-285 | Ranked bids go down in AAV, then in term, then up in time, then in id; the first wins, and charged the price it still outranks all others in that order |
| ResolutionRules.SubmittableMeansAllowed | src/domain/auctions/auctionResolutionPolicy.js:72-109 | Values pass exactly on whole dollars or whole quarters a year, with the AAV rounded half up |
| ResolutionRules.PassingMeansNoDefect | src/domain/auctions/auctionResolutionPolicy.js:172-276 | A bid passes inspection exactly when it has none of nine defects, and keeps its figures |
| ResolutionRules.SkippedForItsFirstDefect | src/domain/auctions/auctionResolutionPolicy.js:172-276 | A skipped bid is listed with its id and the first of its defects in the order of the checks |
| ResolutionRules.PriceWasOffered | src/domain/auctions/actualWinningOfferPolicy.js:14-60 | The price is an offer the winner made in time, or its bid if no event repeats that, allowed and with an AAV no higher than the bid |
| ResolutionRules.PriceIsCheapest | src/domain/auctions/actualWinningOfferPolicy.js:32-59 | No offer of the winner with which it would have outranked every other bid is lower in AAV, then term, then time |
| ResolutionRules.OutcomeFollowsTheClock | src/domain/auctions/auctionResolutionPolicy.js:302-345 | Which outcome it is follows from the status, the deadline, the playoffs and the owner of the player alone |
| ResolutionRules.InvalidExactly | src/domain/auctions/auctionResolutionPolicy.js:302-345 | An auction is invalid exactly when one of its instants is out of range |
| ResolutionRules.SkippedAreListed | src/domain/auctions/auctionResolutionPolicy.js:372-387 | Skipped bids are listed by id, those without one first, then by reason |
| AuctionAgreement.InspectionOfAcceptedBid | src/domain/auctions/auctionResolutionPolicy.js:172-276 | An accepted bid fails inspection for its value only, and exactly when it joined and its last offer would not pass as a join |
| AuctionAgreement.PricingNeverThrowsOnAcceptedBids | src/domain/auctions/auctionResolutionPolicy.js:391-394 | On bids from accepted runs pricing never throws, whatever the history |
| AuctionAgreement.UncontestedWinnerPaysItsLowest | src/domain/auctions/auctionBidPolicy.js:438-454 | Without a competitor the final AAV equals the lowest-offered accumulator kept by the edits |
| AuctionAgreement.AcceptedEditThatResolutionSkips | src/domain/auctions/auctionBidPolicy.js:417-422 | A concrete accepted run whose bid the resolution skips for its value |
| CreationWindow.FindZonedInstant | src/domain/auctions/auctionCreationPolicy.js:201-233 | The loop yields the first of five candidates that reads as asked, else the latest correction when shifting, else a failure |
| CreationWindow.ZonedInstantIsExact | src/domain/auctions/auctionCreationPolicy.js:201-233 | With at most one clock change a local time is found whenever some instant reads it; a skipped one is read with the earlier offset or refused |
| CreationWindow.InstantUnderOneChange | src/domain/auctions/auctionCreationPolicy.js:201-233 | The instant in closed form, for skipped, single and double readings |
| CreationWindow.LaterTimesAreLaterInstants | src/domain/auctions/auctionCreationPolicy.js:201-233 | Later local times give later instants unless the earlier one is skipped |
| CreationWindow.GetAuctionCreationWindow | src/domain/auctions/auctionCreationPolicy.js:235-313 | The window is the specified one on the scheduled, daily and weekly paths |
| CreationWindow.WeeklyWindowIsOrdered | src/domain/auctions/auctionCreationPolicy.js:279-312 | An accepted weekly window opens, ends creation, closes and reopens in this order |
| WindowRules.WeeklyWindowReads | src/domain/auctions/auctionCreationPolicy.js:279-312 | Clocks read Monday midnight at both openings, Friday midnight at the cutoff and Sunday four in the afternoon at the close |
| WindowRules.ScheduledWindowReads | src/domain/auctions/auctionCreationPolicy.js:246-263 | Clocks read the scheduled day and minute at the close, a skipped one with the earlier offset; the cutoff is the stated minutes earlier, but not before the opening |
| WindowRules.DailyWindowReads | src/domain/auctions/auctionCreationPolicy.js:264-278 | Clocks read four in the afternoon at the close and a day before at the opening |
| WindowRules.WindowIsChosen | src/domain/auctions/auctionCreationPolicy.js:235-313 | A schedule takes precedence over daily windows, and these over weekly ones |
| CreationWindow.ScheduledWindowIsOrdered | src/domain/auctions/auctionCreationPolicy.js:246-263 | A schedule fails exactly on a skipped Monday midnight; opens <= cutoff <= close always, and close <= next opening exactly when stated |
| CreationWindow.ShiftedCloseOvertakesTheOpening | src/domain/auctions/auctionCreationPolicy.js:246-263 | A clock and an accepted schedule whose bids close half an hour after the next opening |
| CreationWindow.OpenCloseNext | src/domain/auctions/auctionCreationPolicy.js:201-263 | Three local times in order, the middle one shifted if skipped, give instants in order, up to the stated shift past the last |
| CreationWindow.WindowContainsNow | src/domain/auctions/auctionCreationPolicy.js:246-263 | The window misses the present exactly before the clock is set back over its Monday midnight, if the later reading is taken, and after it is set back over the next, if the earlier is taken |
| CreationWindow.RepeatedMidnightOpensLate | src/domain/auctions/auctionCreationPolicy.js:246-263 | A clock and an instant of the new week at which its window has not opened |
| CreationWindow.DailyWindowContainsNow | src/domain/auctions/auctionCreationPolicy.js:264-278 | A daily window contains the present |
| WriteFence.FenceConfines | src/operations/teamRemovalWriteFence.js:8-42 | Over tables with or without id and league columns, writes that do not abort leave every row outside the reviewed ids and league untouched and reach listed columns only |
| WriteFence.UnpinnedFenceLeaks | src/operations/teamRemovalWriteFence.js:18-24 | A scope that lists an id or league column of a table with both lets an outside row be rewritten |
| WriteFence.FenceConfinesExactlyWhenIdentityIsPinned | src/operations/teamRemovalWriteFence.js:8-42 | The fence is sound for all runs exactly when no reviewed update that can pass may change an id or a league |
| WriteFence.CreateTriggers | src/operations/teamRemovalWriteFence.js:13-30 | The triggers of one table are created in order up to the first refusal |
| WriteFence.Connection.InstallWriteFence | src/operations/teamRemovalWriteFence.js:8-37 | Installing succeeds exactly when no name is taken or refused; on failure the connection is as before |
| WriteFence.Connection.RemoveFence | src/operations/teamRemovalWriteFence.js:36-41 | Removing drops the fence once and then does nothing |
| WriteFence.RemovingUndoesInstalling | src/operations/teamRemovalWriteFence.js:32-41 | Removing gives back the triggers there were before |
| TeamRemovalDatabase.RestoreAll | src/operations/teamRemovalRecovery.js:265-276 | Rows are restored exactly when each is still as expected; the first that is not stops everything |
| TeamRemovalDatabase.UpdateAll | src/operations/teamRemovalRecovery.js:188-194 | Reviewed rows are rewritten, all others kept, and no trigger stops it |
| TeamRemovalDatabase.InsertAll | src/operations/teamRemovalRecovery.js:197 | Rows are inserted exactly when no key is taken |
| TeamRemovalDatabase.DeleteAll | src/operations/teamRemovalRecovery.js:196 | Reviewed rows are deleted and nothing else |
| TeamRemovalDatabase.RecoveryDatabase.Apply | src/operations/teamRemovalRecovery.js:159-218 | Applying under the fence is the specified all-or-nothing transition; TeamRemovalEffects.RemovalDoes states it column by column |
| TeamRemovalDatabase.RecoveryDatabase.Rollback | src/operations/teamRemovalRecovery.js:244-287 | Compensating under the fence is the specified all-or-nothing transition; TeamRemovalEffects.CompensationDoes states it column by column |
| TeamRemoval.ScopesPinIdentity | src/operations/teamRemovalRecovery.js:119-141 | Both write scopes keep the identity of the rows they update, so the fence is sound for them |
| TeamRemovalEffects.RemovalDoes | src/operations/teamRemovalRecovery.js:167-204 | Teams are erased, live assignments ended, active contracts cancelled, open years eliminated and picks forfeited, with the stated times and versions; ownerships, display rows and old matches go, new matches and records stand, all else stays |
| TeamRemovalEffects.RemovalDoneExactly | src/operations/teamRemovalRecovery.js:159-218 | A removal is done exactly for an authorized, valid, matching preview of rows that are in place, with free keys and matches of the season: verification never stops it |
| TeamRemovalEffects.RemovalWasVerified | src/operations/teamRemovalRecovery.js:220-242 | Afterwards the survivors are the active teams, nothing is owned or contracted by those gone, and the season has the new matches only |
| TeamRemovalEffects.CompensationDoes | src/operations/teamRemovalRecovery.js:244-287 | A compensation is done within fifteen minutes, only if every row stood as the removal left it, and gives each back with the stated version and time |
| TeamRemovalEffects.TooLateToCompensate | src/operations/teamRemovalRecovery.js:256 | More than fifteen minutes after the removal a rollback is refused as too late |
| TeamRemovalRuns.OnlyTwoCallsWrite | src/operations/teamRemovalRecovery.js:159-287 | Refused and repeated calls write nothing; a writing call takes absent to applied or applied to reversed |
| TeamRemovalRuns.PhasesOnlyAdvance | src/operations/teamRemovalRecovery.js:159-287 | Over any run the phase only advances and a receipt never changes |
| TeamRemovalRuns.ReceiptIsACapture | src/operations/teamRemovalRecovery.js:167-204 | A receipt is the capture of one moment of the run at which the removal was applied |
| TeamRemovalRuns.ForeignRowsSurviveRemoval | src/operations/teamRemovalRecovery.js:176-204 | The removal leaves every row it did not capture or insert as it stood |
| TeamRemovalRuns.RollbackRestores | src/operations/teamRemovalRecovery.js:262-279 | After a successful rollback every captured row is as captured but for larger versions and update times |
| TeamRemovalRuns.ForeignWritesSurviveRollback | src/operations/teamRemovalRecovery.js:262-281 | Every row the receipt does not cover, and every protected table, is left as it stood |
| TeamRemovalRuns.CompensationUnderConcurrency | src/operations/teamRemovalRecovery.js:159-287 | After any run with foreign steps a rollback that succeeds restores the rows captured when the removal was applied |
| TeamRemovalRuns.ImmediateRollbackSucceedsExactly | src/operations/teamRemovalRecovery.js:264-273 | A timely rollback straight after the removal succeeds exactly when every captured contract year can be restored |
| TeamRemovalRuns.FinishedYearStopsEveryRollback | src/operations/teamRemovalRecovery.js:244-273 | After capturing a completed year every rollback is refused, through any calls and foreign steps that leave that year alone |
| TeamRemovalRuns.RemovalThatCannotBeTakenBack | src/operations/teamRemovalRecovery.js:159-287 | A concrete database whose removal goes through and cannot be compensated |
| AuthorityPreview.NoMutationExactlyInOrder | scripts/preview-m7-26-authority-reconciliation.js:52-192 | The preview asks for nothing exactly when every live league has its one commissioner and every administrator is covered |
| AuthorityReconciliation.NoProblemExactly | scripts/reconcile-m7-26-staging-authority.js:457-597 | A list of checks passes exactly when each of its items does |
| AuthorityDatabase.CheckLeagues | scripts/reconcile-m7-26-staging-authority.js:457-486 | The loop names the first league problem in order |
| AuthorityDatabase.CollectDemotions | scripts/reconcile-m7-26-staging-authority.js:499-521 | The planned demotions are those of the surplus commissioners; AuthorityEffects.ReportedDemotion states each in full |
| AuthorityDatabase.CollectCoverage | scripts/reconcile-m7-26-staging-authority.js:523-597 | The planned provisions and normalizations are those administrators need, or the first problem is named |
| AuthorityDatabase.CollectPlan | scripts/reconcile-m7-26-staging-authority.js:409-608 | The plan, or the first failure in the order of the checks |
| AuthorityDatabase.AuthorityConnection.DemoteAll | scripts/reconcile-m7-26-staging-authority.js:817-835 | Demotions are written one row each, exactly when all rows are as planned |
| AuthorityDatabase.AuthorityConnection.InsertAll | scripts/reconcile-m7-26-staging-authority.js:837-849 | Provisions are written one row each, exactly when keys and active memberships are free |
| AuthorityDatabase.AuthorityConnection.NormalizeAll | scripts/reconcile-m7-26-staging-authority.js:851-871 | Normalizations are written one row each, exactly when all rows are as planned |
| AuthorityDatabase.AuthorityConnection.Reconcile | scripts/reconcile-m7-26-staging-authority.js:760-967 | The transaction is the specified transition, and the changes it counts are the changes it reports; AuthorityEffects states what it writes |
| AuthorityProperties.PlanSucceedsExactly | scripts/reconcile-m7-26-staging-authority.js:409-608 | Planning succeeds exactly on authority that meets its demands, and then plans the stated writes |
| AuthorityProperties.WritesAreDisjoint | scripts/reconcile-m7-26-staging-authority.js:499-597 | Demoted, provisioned and normalized memberships are all different |
| AuthorityProperties.PlannedWritesApply | scripts/reconcile-m7-26-staging-authority.js:817-871 | After planning succeeded every write finds its row, and each membership becomes what is stated |
| AuthorityProperties.ReconciledIsInOrder | scripts/reconcile-m7-26-staging-authority.js:744-758 | The result always passes the post-check |
| AuthorityProperties.FirstRunCompletesExactly | scripts/reconcile-m7-26-staging-authority.js:760-967 | A first run completes exactly when planning succeeds; otherwise it leaves the database as it was |
| AuthorityEffects.FirstRunCompletesOn | scripts/reconcile-m7-26-staging-authority.js:409-608 | A first run completes exactly on the stated authority: pointers, commissioners, transfers and memberships that allow a plan |
| AuthorityEffects.MembershipsBecome | scripts/reconcile-m7-26-staging-authority.js:499-597 | A surplus commissioner becomes manager exactly if it holds a team, else member; an irregular administrator becomes a joined member; others stay, field by field |
| AuthorityEffects.MembershipsAppear | scripts/reconcile-m7-26-staging-authority.js:837-849 | Each uncovered administrator is given the stated active membership, and no other membership appears |
| AuthorityEffects.AuthorityAfterwards | scripts/reconcile-m7-26-staging-authority.js:744-758 | Afterwards a live league points at its one active commissioner, and each administrator is an active, joined member |
| AuthorityEffects.ReportSays | scripts/reconcile-m7-26-staging-authority.js:876-964 | The report lists exactly the changed memberships and both previews, and is stored in the one new audit record |
| AuthorityEffects.ReportedDemotion | scripts/reconcile-m7-26-staging-authority.js:499-521 | Each reported demotion carries the row it was planned for, its category and the teams held |
| AuthorityEffects.ArgumentsChecked | scripts/reconcile-m7-26-staging-authority.js:760-785 | Arguments are refused exactly for an unsupported schema version or a clock that is no safe integer |
| AuthorityEffects.ReplayIsOfThisRelease | scripts/reconcile-m7-26-staging-authority.js:703-742 | A replay answers only from the completed record of this release, database and environment |
| AuthorityEffects.ForeignRecordConflicts | scripts/reconcile-m7-26-staging-authority.js:703-742 | Any other record under the identifier is a conflict, and nothing is written |
| AuthorityEffects.FindingsName | scripts/preview-m7-26-authority-reconciliation.js:52-192 | Which memberships, pairs, assignments and leagues each finding of the preview names |
| AuthorityProperties.ChangesAreAccounted | scripts/reconcile-m7-26-staging-authority.js:876-964 | The reported count is the number of membership rows that differ plus one audit record |
| AuthorityProperties.RestIsUntouched | scripts/reconcile-m7-26-staging-authority.js:817-871 | Only surplus commissioners and irregular administrators change, and a league's pointed-at commissioner never does |
| AuthorityProperties.ConstraintsAreKept | scripts/reconcile-m7-26-staging-authority.js:817-871 | Unique active memberships, foreign keys and value constraints hold after a run if they held before |
| AuthorityProperties.SecondRunReplays | scripts/reconcile-m7-26-staging-authority.js:786-806 | A second run of a release writes nothing and returns the stored report |
| AuthorityProperties.ReplayAnswersExactlyWhileInOrder | scripts/reconcile-m7-26-staging-authority.js:703-806 | A replay writes nothing and answers exactly while the authority is in order |
| AuthorityProperties.InOrderPlansNothing | scripts/reconcile-m7-26-staging-authority.js:409-608 | Authority in order gives an empty plan under every release |
| AuthorityProperties.NextReleasePlansNothing | scripts/reconcile-m7-26-staging-authority.js:409-608 | After a completed run another release plans no change |
| AuthorityProperties.ReconciliationUnblocksMigration | database/migrations/0054_enforce_league_authority_invariants.sql:6-59 | After a completed run the three counts the migration demands are zero, deleted leagues included |
| LeagueTables.StatementSplits | src/operations/guidedLeagueReset.js:38-47 | A statement confined to one league changes that league's rows only, in place |
| LeagueTables.PutAllSplits | src/operations/guidedLeagueReset.js:97-103 | Putting a league's rows back leaves the other rows and their order alone |
| LeagueTables.PutAllInPlace | src/operations/guidedLeagueReset.js:100-102 | Rows still there are replaced where they stand |
| LeagueTables.AroundKeepsOrderExactly | src/operations/guidedLeagueReset.js:97-103 | With one row kept the order comes back exactly when that row was first; the rows always do |
| GuidedResetProperties.DecodeAllEncodes | src/operations/guidedLeagueReset.js:30-31 | Decoding gives back what was encoded, binary values included |
| GuidedResetProperties.SameCaptureExactly | src/operations/guidedLeagueReset.js:36 | Two captures are equal exactly when the league's rows are, in order, in every changed table |
| GuidedResetProperties.ResetProtectsTheRest | src/operations/guidedLeagueReset.js:73-92 | A reset succeeds exactly when eligible and referentially sound, and leaves all other rows as they were |
| GuidedResetProperties.ResetLeavesSetup | src/operations/guidedLeagueReset.js:81-92 | Afterwards the cleared tables hold nothing of the league, the league is in setup and cannot be reset again |
| GuidedResetEffects.ResetDoes | src/operations/guidedLeagueReset.js:48-92 | Only a frozen league with an unplayed current season is reset: its freeze ends now by the actor, that season alone is left, planned and undated, active teams and the league return to setup, the trade deadline is unset, with stated times and versions |
| GuidedResetEffects.NothingIsActive | src/operations/guidedLeagueReset.js:87-89 | Afterwards no freeze and no team of the league is active |
| GuidedResetEffects.RestoreDoes | src/operations/guidedLeagueReset.js:93-105 | A restore is done only from an archive of this schema that holds the league's rows, and leaves exactly those |
| GuidedResetEffects.AlteredScopeIsRefused | src/operations/guidedLeagueReset.js:121-124 | The restore of a rehearsed reset is refused exactly when its scope is another |
| GuidedResetProperties.RestoreAfterReset | src/operations/guidedLeagueReset.js:93-105 | All archived rows come back and no other league's row moves; the restore succeeds exactly when the kept season was first |
| GuidedResetProperties.RehearsalSucceedsExactly | src/operations/guidedLeagueReset.js:115-120 | A rehearsal succeeds exactly when the reset does and the kept season was stored first |
| GuidedResetProperties.RehearsedResetIsRestorable | src/operations/guidedLeagueReset.js:121-124 | A rehearsed reset can be restored row for row while its scope is unaltered and references hold |
| GuidedResetProperties.LaterSeasonStoredFirst | src/operations/guidedLeagueReset.js:104 | A concrete eligible league whose rehearsal ends in a mismatch |
| GuidedResetDatabase.PutBack | src/operations/guidedLeagueReset.js:97-103 | Archived rows go back one by one exactly when all belong to the league and fit |
| GuidedResetDatabase.LeagueStore.Reset | src/operations/guidedLeagueReset.js:73-92 | The statements of the reset make the specified content, or leave the old one; GuidedResetEffects.ResetDoes states it column by column |
| GuidedResetDatabase.LeagueStore.Restore | src/operations/guidedLeagueReset.js:93-105 | The loops of the restore make the specified content, or leave the old one |
| GoonReset.ResetProtectsTheRest | src/operations/goonLeagueReset.js:55-115 | The reset leaves every other row of every table as it was, in order |
| GoonReset.NullReferenceKeepsAllJobs | src/operations/goonLeagueReset.js:82-86 | One missing job reference keeps every job of the league |
| GoonReset.UnreferencedJobsGo | src/operations/goonLeagueReset.js:82-86 | Without one, the jobs left are exactly those referred to |
| GoonReset.UnreferencedJobLeftBehind | src/operations/goonLeagueReset.js:82-86 | A concrete league whose reset succeeds and leaves a finished job that nothing refers to |
| GoonResetEffects.ResetDoes | src/operations/goonLeagueReset.js:61-115 | Only a completed, unchanged draft is reset: cards, draft and season become as stated column by column, cleared rows go, eight cards are open and no job is unfinished |
| GoonResetEffects.JobsGo | src/operations/goonLeagueReset.js:82-87 | A job of the league goes exactly when no readiness operation refers to it and none refers to no job |
| GoonResetEffects.RequestsGo | src/operations/goonLeagueReset.js:88-89 | Requests of the league go exactly for the forgotten operations |
| GoonResetEffects.RestoreDoes | src/operations/goonLeagueReset.js:127-162 | A restore is done only for the league as expected and from an archive of its rows, and gives back its fingerprint |
| GoonReset.ResetIsAppliedOnce | src/operations/goonLeagueReset.js:64-65 | A second reset is refused as already applied |
| GoonReset.RestoreSucceedsExactly | src/operations/goonLeagueReset.js:133-162 | The restore gives back the captured rows in order, and succeeds exactly when references hold and the unchanged tables are as at capture |
| GoonReset.ResetIsAlwaysRestorable | src/operations/goonLeagueReset.js:127-162 | After a reset, while the league's fingerprint stands, a restore fails for nothing but references |
| GoonResetDatabase.InsertBack | src/operations/goonLeagueReset.js:148-154 | Captured rows are inserted exactly when all belong to the league and no key is taken |
| GoonResetDatabase.GoonStore.Reset | src/operations/goonLeagueReset.js:55-115 | The statements make the specified content and count what each table lost, or leave the old content; GoonResetEffects.ResetDoes states it column by column |
| GoonResetDatabase.GoonStore.Restore | src/operations/goonLeagueReset.js:133-162 | Deleting and reinserting table by table makes the specified content, or leaves the old one |
| Jobs.EveryRunIsSafe | src/jobs/startScheduler.js:31-97 | Over every interleaving at most one cycle and one execution per job are in flight, and the flags say so |
| Jobs.EveryCycleIsInOrder | src/jobs/startScheduler.js:49-97 | Each cycle's calls are a prefix of the job order, and its rollover follows a finalization answered without failure |
| Jobs.CallsFollowTheOrder | src/jobs/startScheduler.js:60-90 | Each cycle calls roster locks, baseline, finalization and rollover in this order, from the first on |
| Jobs.EveryEndIsEarned | src/jobs/startScheduler.js:67-93 | A cycle succeeds only after its rollover was answered without failure, and fails only after a failed finalization or rollover |
| Jobs.QuietMeansClear | src/jobs/runJob.js:21-59 | When nothing is in flight every flag is false, however it ended |
| Jobs.CyclesCanProceed | src/jobs/startScheduler.js:49-97 | A cycle in flight can always go on, or its execution can end |
| Jobs.RolloverMayStartBesideFinalization | src/jobs/startScheduler.js:65-85 | With outside calls of the finalization only, a run in which the rollover starts while such a call is in flight |
| Jobs.FinalizationBesideRolloverIsForeign | src/jobs/startScheduler.js:65-85 | In every reachable state a finalization beside a cycle's rollover was not called by a cycle |
| Jobs.FinalizationExcludesRolloverExactly | src/bootstrap/createCompatibilityRuntime.js:501-507 | Whatever jobs may be called from outside, no run has a finalization beside a cycle's rollover exactly when the finalization is not among them |
| MatchupScheduler.Scheduler.RunJob | src/jobs/runJob.js:23-34 | Keeps the scheduler safe and its cycles in order; afterwards the job is in flight, started anew only if it was not, and a calling cycle has its reply only if it was |
| MatchupScheduler.Scheduler.FinishJob | src/jobs/runJob.js:34-59 | Keeps the scheduler safe and its cycles in order; afterwards its job is in flight no more, all others are, and the cycle that awaited it can resume with the status returned, or failure when it threw |
| MatchupScheduler.Scheduler.RunCycle | src/jobs/startScheduler.js:49-60 | Keeps the scheduler safe and its cycles in order; afterwards one cycle is in flight, the one there was or a new one calling the first job |
| MatchupScheduler.Scheduler.ResumeCycle | src/jobs/startScheduler.js:60-97 | Keeps the scheduler safe and its cycles in order; the cycle goes on to the next job unless it was the last, the finalization failed or the logger threw, and then no cycle is in flight |
| Sessions.EveryRunKeepsTiming | src/domain/accounts/sessionPolicy.js:71-194 | Over every run the timing stays valid, the absolute deadline never moves, and a closed session stays closed |
| Sessions.DeadlinesInMilliseconds | src/domain/accounts/sessionPolicy.js:46-69 | A session lives 604800000 ms and 43200000 ms without use, and is refused beyond the safe integers |
| Sessions.MalformedExactly | src/domain/accounts/sessionPolicy.js:71-127 | A stored session is malformed exactly when its times are out of order or its status unknown |
| Sessions.VerdictInMilliseconds | src/domain/accounts/sessionPolicy.js:129-194 | The verdict on a use in milliseconds, with the persisted use after 300000 ms and the moved idle deadline |
| Sessions.NoUseAfterSevenDays | src/domain/accounts/sessionPolicy.js:129-194 | No use seven days or more after creation is valid |
| Sessions.NoUseAfterTwelveIdleHours | src/domain/accounts/sessionPolicy.js:129-194 | No use twelve hours or more after the last persisted one is valid |
| Sessions.RegularUseIsNeverIdleExpired | src/domain/accounts/sessionPolicy.js:129-194 | Uses at most 11 h 55 min apart are valid until the absolute deadline |
| Sessions.LongerGapsMayIdleOut | src/domain/accounts/sessionPolicy.js:168-184 | One millisecond more and a used session can idle out |
| Sessions.EvaluationFailsExactly | src/domain/accounts/sessionPolicy.js:36-44 | A kept session's evaluation fails exactly when a due refresh would leave the safe integers |
| Passwords.HasValidUnicodeScalarSequence | src/domain/accounts/passwordPolicy.js:26-45 | The scan accepts exactly well-formed text and text whose only defect is an unpaired high surrogate at the end |
| Passwords.EncodedIsWellFormed | src/domain/accounts/passwordPolicy.js:26-61 | UTF-16 text of scalar values is well formed and iterating over it gives them back |
| Passwords.WellFormedIsEncoded | src/domain/accounts/passwordPolicy.js:26-61 | Well-formed text is the encoding of the code points iterating over it yields |
| Passwords.InspectPassword | src/domain/accounts/passwordPolicy.js:47-96 | The verdict in the order of the checks |
| Passwords.TooLargeIsUnreachable | src/domain/accounts/passwordPolicy.js:80-90 | The byte limit never refuses a password; acceptable text is too short below 6 code points, too long above 256, and accepted between |
| Passwords.UnpairedSurrogateIsAccepted | src/domain/accounts/passwordPolicy.js:26-45 | A concrete accepted text that encodes no Unicode text |

## Left out

- SQL text, pragmas, write-ahead logging, transactions inside the engine: a transaction is one step that keeps all of its writes or none, a table is a map by key or a list in row order, and one statement is one change of a table.
- Persistent triggers that the two resets drop and recreate, and the comparison of the schema around them: trigger text is not part of this model.
- SHA-256, deterministic UUIDs, digests, fingerprints and base64: injective, so they are compared by what they are taken of.
- Identifiers and season keys are ranks of their text in the collation order; the locale of that order is not part of this model.
- JavaScript numbers are unbounded integers with the safe-integer bound checked where the code checks it. Within that bound the floor of a quotient is exact; values that are not integers and malformed object shapes are refused before the modelled code and left out.
- Command lines, environment loaders, file guards, backups, encryption of archives, e-mail, HTTP routes and composition code: plumbing.
- Authorization, execution grants and the reads of membership and team authority are booleans of the caller.
- `src/domain/auctions/auctionAdministrationPolicy.js`: shape checks over a serializer that is not part of this model; it would add only easy members.
- Bid runs keep the auction row fixed: a change of its closing time while bids are running is not modelled.
- The participant row of a restricted auction is taken as each command finds it; how it is updated is not part of this model.
- The match schedule of a team removal is any set of new rows, and the commissioner correction is modelled by the row effects the rollback expects; the repository classes behind them are not part of this model.
- Rows that a removal only adds to event, activity and correction tables are merged in one table of evidence, and the two operational events that mark an operation applied or reversed are fields of the state.
- Read-only guards of a removal over tables the model does not carry (jobs in flight, players reacquired, deadlines) are one boolean, and so are the foreign-key check, the lock-time limit and the injected phase hook at its end.
- A removal's writes are made table by table, not team by team; every row gets the same values either way, and a failed write undoes all of them.
- Each table's team column is called the same, though contracts and draft picks name theirs differently.
- Order of the reconciliation's report lists, its before and after snapshots of memberships and its error details: the report carries the findings and the plan by content.
- AuthorityProperties.SecondRunReplays: asks that the reported count is a safe integer, since a replay refuses a record whose count is not.
- AuthorityDatabase.AuthorityConnection.InsertAll: the commissioner index that schema 54 adds is not a constraint of the model; no planned write creates a commissioner.
- Tables whose primary key is not a single id column have no key conflicts in the reset models; their uniqueness is part of the assumption that other leagues do not hold archived keys.
- Eligibility reads of a guided reset over played, leased, undelivered or unfinished records are one boolean; the size limits of a rehearsal and the manifest shown to the reviewer are left out.
- The readiness checks of the one-off reset other than the draft's status, the fingerprint, the jobs left over and the open cards are one boolean.
- GuidedResetProperties.RehearsalSucceedsExactly: assumes that foreign keys hold before the reset and that the check of them does not depend on row order.
- CreationWindow.ZonedInstantIsExact: assumes at most one change of offset within a day of the local time, and offsets of whole seconds and less than a day; zones with more changes, and years outside the calendar of the platform, are left out.
- CreationWindow.DailyWindowContainsNow: assumes that the clock is never set back by more than eight hours.
- Awaits are the only points where steps interleave; a runner whose execute function throws before its first await is an execution that starts and ends in two steps.
- Jobs whose `run` is not one of the modelled runners, and replies that are not objects, are left out.
- Sessions.RegularUseIsNeverIdleExpired: assumes that creation plus seven days and twelve hours is a safe integer; beyond it a due refresh fails, as Sessions.EvaluationFailsExactly states.
- Password confirmation: two comparisons after the inspection, which would add only easy members.
