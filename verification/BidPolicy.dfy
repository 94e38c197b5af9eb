/** The state policy for submitting a bid to an auction and for editing it. */
module BidPolicy {
  import opened Collections
  import opened Offers

  const COOLDOWN_MS: int := 75 * 60 * 1000

  datatype BidError =
    | AuthorizationDenied | AuctionUnavailable | WindowClosed | BidConflict | VersionConflict
    | TermRejected | ValueRejected | EditLimitReached | CooldownActive
    | CandidateBidInvalid | CandidateFloorInvalid

  datatype SourceKind = OrdinaryWeekly | FadOpenRapid | FadRestricted | OtherSource

  datatype Origin = ManagerNomination | QueuedNomination | CandidateTieRestricted | RestrictedNoImprovementFallback
    | OtherOrigin

  datatype AllocationStatus = RestrictedActive | RestrictedFallbackOpen | OtherAllocation

  /** The auction columns the policy reads; nullable columns are options. */
  datatype AuctionRow = AuctionRow(
    leagueId: Id, seasonId: Id, isOpen: bool, openedAtMs: int, resolvesAtMs: int,
    sourceKind: Option<SourceKind>, fadOrigin: Option<Origin>, fadId: Option<Id>,
    fadAllocationId: Option<Id>, allocationStatus: Option<AllocationStatus>,
    fadStartedEventCount: int, fadStarterBidCount: int,
    fadStarterBidId: Option<Id>, fadStarterTeamId: Option<Id>,
    queuedStarterCount: int, queuedStarterBidId: Option<Id>, queuedStarterTeamId: Option<Id>,
    restrictedAuctionId: Option<Id>, fallbackOpenAuctionId: Option<Id>,
    restrictedMinimumTotalCents: int, restrictedMinimumTermYears: int, restrictedMinimumAavCents: int)

  datatype Participant = Participant(
    isActive: bool, seasonId: Id, fadId: Option<Id>, allocationId: Option<Id>, auctionId: Id, teamId: Id,
    managerEditLimit: int, cooldownDurationMs: int,
    minimumTotalValueCents: int, minimumTermYears: int, minimumAavCents: int,
    activeImprovementBidId: Option<Id>, firstImprovementAtMs: Option<int>,
    currentCooldownAnchorAtMs: Option<int>, improvementCommittedAtMs: Option<int>)

  datatype Command = Command(
    auctionId: Id, bidId: Id, leagueId: Id, teamId: Id, aavCents: int, termYears: int,
    expectedBidVersion: Option<int>, occurredAtMs: int)

  /** A stored bid. Rows from before the total accumulator existed have none. */
  datatype BidRow = BidRow(
    id: Id, auctionId: Id, teamId: Id, isActive: bool, totalValueCents: int, termYears: int,
    lowestOfferedAavCents: int, lowestOfferedTotalValueCents: Option<int>,
    firstSubmittedAtMs: int, lastEditedAtMs: int, editCount: int, version: int)

  datatype Action = Submitted | Edited

  datatype BidState = BidState(
    action: Action, offer: Offer, lowestOfferedAavCents: int, lowestOfferedTotalValueCents: int,
    firstSubmittedAtMs: int, lastEditedAtMs: int, editCount: int, nextVersion: int)

  datatype Context =
    | Ordinary
    | OpenRapid(starterBidId: Id, starterTeamId: Id)
    | Restricted(editLimit: int, floor: Offer)
    | Fallback(floor: Offer)

  predicate IsNominatedRapid(a: AuctionRow) {
    && a.sourceKind == Some(FadOpenRapid)
    && (a.fadOrigin == Some(ManagerNomination) || a.fadOrigin == Some(QueuedNomination))
    && a.fadAllocationId.None?
    && a.fadStartedEventCount == 1 && a.fadStarterBidCount == 1
    && a.fadStarterBidId.Some? && a.fadStarterTeamId.Some?
    && (|| (&& a.fadOrigin == Some(ManagerNomination)
            && a.queuedStarterCount == 0 && a.queuedStarterBidId.None? && a.queuedStarterTeamId.None?)
        || (&& a.fadOrigin == Some(QueuedNomination)
            && a.queuedStarterCount == 1 && a.queuedStarterBidId == a.fadStarterBidId
            && a.queuedStarterTeamId == a.fadStarterTeamId))
  }

  predicate HasFloorShape(total: int, term: int, aav: int) {
    IsSafe(total) && total > 0 && IsTerm(term) && IsSafe(aav) && aav >= 100
  }

  predicate IsRestricted(c: Command, a: AuctionRow, p: Option<Participant>) {
    && a.sourceKind == Some(FadRestricted)
    && a.fadOrigin == Some(CandidateTieRestricted)
    && a.allocationStatus == Some(RestrictedActive)
    && a.restrictedAuctionId == Some(c.auctionId)
    && p.Some?
    && p.value.isActive
    && p.value.seasonId == a.seasonId && p.value.fadId == a.fadId
    && p.value.allocationId == a.fadAllocationId
    && p.value.auctionId == c.auctionId && p.value.teamId == c.teamId
    && p.value.managerEditLimit == 1 && p.value.cooldownDurationMs == COOLDOWN_MS
    && HasFloorShape(p.value.minimumTotalValueCents, p.value.minimumTermYears, p.value.minimumAavCents)
  }

  predicate IsFallback(c: Command, a: AuctionRow) {
    && a.sourceKind == Some(FadOpenRapid)
    && a.fadOrigin == Some(RestrictedNoImprovementFallback)
    && a.allocationStatus == Some(RestrictedFallbackOpen)
    && a.fallbackOpenAuctionId == Some(c.auctionId)
    && HasFloorShape(a.restrictedMinimumTotalCents, a.restrictedMinimumTermYears, a.restrictedMinimumAavCents)
  }

  /** Which kind of auction this is; an auction without a source kind is an ordinary weekly one. */
  function BidContext(c: Command, a: AuctionRow, p: Option<Participant>): Option<Context> {
    if a.sourceKind.None? || a.sourceKind == Some(OrdinaryWeekly) then Some(Ordinary)
    else if IsNominatedRapid(a) then Some(OpenRapid(a.fadStarterBidId.value, a.fadStarterTeamId.value))
    else if IsRestricted(c, a, p) then
      Some(Restricted(p.value.managerEditLimit,
                      Offer(p.value.minimumTotalValueCents, p.value.minimumTermYears, p.value.minimumAavCents)))
    else if IsFallback(c, a) then
      Some(Fallback(Offer(a.restrictedMinimumTotalCents, a.restrictedMinimumTermYears, a.restrictedMinimumAavCents)))
    else None
  }

  /** The candidate allocation policy's canonical contract: exact AAV, on either grid. */
  predicate IsCanonicalContract(o: Offer) {
    && IsTerm(o.termYears)
    && IsSafe(o.totalValueCents) && o.totalValueCents >= o.termYears * 100
    && IsSafe(o.aavCents) && o.aavCents == RoundedAav(o.totalValueCents, o.termYears)
    && (|| (o.aavCents % 25 == 0 && o.totalValueCents == o.aavCents * o.termYears)
        || OnLegacyGrid(o.totalValueCents, o.termYears))
  }

  /** AAV first, longest term second; both sides must be canonical contracts. */
  function CompareToFloor(bid: Offer, floor: Offer): Result<int, BidError> {
    if !IsCanonicalContract(bid) then Err(CandidateBidInvalid)
    else if !IsCanonicalContract(floor) then Err(CandidateFloorInvalid)
    else if bid.aavCents != floor.aavCents then Ok(if bid.aavCents > floor.aavCents then 1 else -1)
    else if bid.termYears != floor.termYears then Ok(if bid.termYears > floor.termYears then 1 else -1)
    else Ok(0)
  }

  /** The error that a floor raises against an offer, if any. */
  function ContextOfferError(offer: Offer, context: Context): Option<BidError> {
    match context
    case Ordinary => None
    case OpenRapid(_, _) => None
    case Restricted(_, floor) =>
      (match CompareToFloor(offer, floor)
       case Err(e) => Some(e)
       case Ok(n) => if n <= 0 then Some(ValueRejected) else None)
    case Fallback(floor) =>
      (match CompareToFloor(offer, floor)
       case Err(e) => Some(e)
       case Ok(n) => if n < 0 then Some(ValueRejected) else None)
  }

  /** A participant's improvement columns disagree with the bid it should be tracking. */
  predicate ParticipantConflict(p: Participant, existing: Option<BidRow>) {
    match existing
    case None =>
      || p.activeImprovementBidId.Some? || p.firstImprovementAtMs.Some?
      || p.currentCooldownAnchorAtMs.Some? || p.improvementCommittedAtMs.Some?
    case Some(b) =>
      || p.activeImprovementBidId != Some(b.id)
      || p.firstImprovementAtMs != Some(b.firstSubmittedAtMs)
      || p.currentCooldownAnchorAtMs != Some(b.lastEditedAtMs)
      || p.improvementCommittedAtMs != Some(b.lastEditedAtMs)
  }

  predicate IsStarter(b: BidRow, a: AuctionRow, context: Context) {
    match context
    case Ordinary => b.firstSubmittedAtMs == a.openedAtMs
    case OpenRapid(bidId, teamId) => b.id == bidId && b.teamId == teamId
    case _ => false
  }

  function EditLimit(b: BidRow, a: AuctionRow, context: Context): int {
    match context
    case Restricted(limit, _) => limit
    case Fallback(_) => 1
    case _ => if IsStarter(b, a, context) then 2 else 1
  }

  function RejectedOffer(e: OfferError): BidError {
    match e case TermInvalid => TermRejected case ValueInvalid => ValueRejected
  }

  function SubmitBid(c: Command, context: Context): Result<BidState, BidError> {
    if c.expectedBidVersion.Some? then Err(VersionConflict)
    else
      match ValidateBidOffer(c.aavCents, c.termYears, true)
      case Err(e) => Err(RejectedOffer(e))
      case Ok(offer) =>
        match ContextOfferError(offer, context)
        case Some(e) => Err(e)
        case None =>
          Ok(BidState(Submitted, offer, offer.aavCents, offer.totalValueCents, c.occurredAtMs, c.occurredAtMs, 0, 1))
  }

  function EditBid(c: Command, a: AuctionRow, b: BidRow, context: Context): Result<BidState, BidError> {
    if b.auctionId != c.auctionId || b.teamId != c.teamId || !b.isActive then Err(BidConflict)
    else if c.expectedBidVersion != Some(b.version) then Err(VersionConflict)
    else
      match ValidateBidOffer(c.aavCents, c.termYears, context.Restricted?)
      case Err(e) => Err(RejectedOffer(e))
      case Ok(offer) =>
        match ContextOfferError(offer, context)
        case Some(e) => Err(e)
        case None =>
          if b.editCount >= EditLimit(b, a, context) then Err(EditLimitReached)
          else if c.occurredAtMs < b.lastEditedAtMs + COOLDOWN_MS then Err(CooldownActive)
          else
            var lowestTotal := match b.lowestOfferedTotalValueCents
                               case Some(n) => n
                               case None => b.totalValueCents;
            Ok(BidState(Edited, offer, Min(b.lowestOfferedAavCents, offer.aavCents),
                        Min(lowestTotal, offer.totalValueCents),
                        b.firstSubmittedAtMs, c.occurredAtMs, b.editCount + 1, b.version + 1))
  }

  /** `isAuthorized` stands for the read of the manager's membership and team assignment. */
  function AssertAuctionBidState(c: Command, isAuthorized: bool, auction: Option<AuctionRow>,
                                 existing: Option<BidRow>, p: Option<Participant>): Result<BidState, BidError>
  {
    if !isAuthorized then Err(AuthorizationDenied)
    else if auction.None? then Err(AuctionUnavailable)
    else
      var a := auction.value;
      if a.leagueId != c.leagueId || !a.isOpen || !IsSafe(a.openedAtMs) || a.openedAtMs < 0
         || c.occurredAtMs < a.openedAtMs then Err(AuctionUnavailable)
      else if c.occurredAtMs >= a.resolvesAtMs then Err(WindowClosed)
      else
        match BidContext(c, a, p)
        case None => Err(AuctionUnavailable)
        case Some(context) =>
          if context.Restricted? && p.Some? && ParticipantConflict(p.value, existing) then Err(BidConflict)
          else if existing.None? then SubmitBid(c, context)
          else EditBid(c, a, existing.value, context)
  }

  /**
   * An offer the bid policy has validated is always a canonical contract, so a floor
   * comparison can fail on the stored floor only, never on the bid.
   */
  lemma OnlyTheFloorCanBeMalformed(c: Command, isAuthorized: bool, auction: Option<AuctionRow>,
                                   existing: Option<BidRow>, p: Option<Participant>)
    ensures AssertAuctionBidState(c, isAuthorized, auction, existing, p) != Err(CandidateBidInvalid)
  {
  }
}
