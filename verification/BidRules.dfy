/** What it takes for a bid command to be accepted, and what an accepted one leaves behind, in plain figures. */
module BidRules {
  import opened Collections
  import opened Offers
  import opened BidPolicy

  // ---------- offers and floors ----------

  /** What a bid of a term has to reach to join an auction. */
  function JoiningFloor(term: int): int {
    if term == 1 then 150 else if term == 2 then 300 else 500
  }

  /** Quarters of a dollar a year, a dollar at least, for one to three years, up to the largest safe integer. */
  predicate WellFormed(aav: int, term: int, joining: bool) {
    && 1 <= term <= 3 && aav >= 100 && aav % 25 == 0 && aav * term <= 9_007_199_254_740_991
    && (joining ==> aav * term >= JoiningFloor(term))
  }

  lemma ValidMeansWellFormed(aav: int, term: int, joining: bool)
    ensures ValidateBidOffer(aav, term, joining).Ok? <==> WellFormed(aav, term, joining)
    ensures WellFormed(aav, term, joining) ==>
              ValidateBidOffer(aav, term, joining) == Ok(Offer(aav * term, term, aav))
    ensures !joining ==> ValidateOpeningBid(aav, term) == ValidateBidOffer(aav, term, joining)
  {
  }

  /** A contract whose AAV is its total over its term, halves rounded up, in quarters a year or whole dollars. */
  predicate IsFloor(floor: Offer) {
    var total, term := floor.totalValueCents, floor.termYears;
    && 1 <= term <= 3 && 100 * term <= total <= 9_007_199_254_740_991
    && floor.aavCents == (2 * total + term) / (2 * term)
    && ((floor.aavCents % 25 == 0 && total == floor.aavCents * term) || term == 1 || total % 100 == 0)
  }

  lemma CanonicalMeansFloor(floor: Offer)
    ensures IsCanonicalContract(floor) <==> IsFloor(floor)
  {
  }

  lemma CanonicalOffer(aav: int, term: int, joining: bool)
    requires WellFormed(aav, term, joining)
    ensures IsCanonicalContract(Offer(aav * term, term, aav))
  {
  }

  /** A higher AAV, or the same over a longer term. */
  predicate Improves(aav: int, term: int, floor: Offer) {
    aav > floor.aavCents || (aav == floor.aavCents && term > floor.termYears)
  }

  /**
   * What an auction asks of an offer beyond its form: in a restricted one it improves on the
   * participant's minimum, in a fallback it is at least that minimum, in others nothing.
   */
  predicate Clears(aav: int, term: int, context: Context) {
    match context
    case Restricted(_, floor) => IsFloor(floor) && Improves(aav, term, floor)
    case Fallback(floor) =>
      IsFloor(floor) && (Improves(aav, term, floor) || (aav == floor.aavCents && term == floor.termYears))
    case _ => true
  }

  lemma ClearsExactly(aav: int, term: int, joining: bool, context: Context)
    requires WellFormed(aav, term, joining)
    ensures ContextOfferError(Offer(aav * term, term, aav), context).None? <==> Clears(aav, term, context)
  {
    CanonicalOffer(aav, term, joining);
    match context {
      case Restricted(_, floor) => CanonicalMeansFloor(floor);
      case Fallback(floor) => CanonicalMeansFloor(floor);
      case _ =>
    }
  }

  // ---------- kinds of auction ----------

  /** The minimum stored for a participant or an allocation is at least a contract in shape. */
  predicate HasShape(o: Offer) {
    && 0 < o.totalValueCents <= 9_007_199_254_740_991 && 1 <= o.termYears <= 3
    && 100 <= o.aavCents <= 9_007_199_254_740_991
  }

  /** The auction is of this kind, whichever kinds are looked for first. */
  predicate IsOfKind(c: Command, a: AuctionRow, p: Option<Participant>, kind: Context) {
    match kind
    case Ordinary => a.sourceKind.None? || a.sourceKind == Some(OrdinaryWeekly)
    case OpenRapid(bidId, teamId) =>
      && a.sourceKind == Some(FadOpenRapid) && a.fadAllocationId.None?
      && a.fadStartedEventCount == 1 && a.fadStarterBidCount == 1
      && a.fadStarterBidId == Some(bidId) && a.fadStarterTeamId == Some(teamId)
      && (|| (a.fadOrigin == Some(ManagerNomination)
              && a.queuedStarterCount == 0 && a.queuedStarterBidId.None? && a.queuedStarterTeamId.None?)
          || (a.fadOrigin == Some(QueuedNomination) && a.queuedStarterCount == 1
              && a.queuedStarterBidId == Some(bidId) && a.queuedStarterTeamId == Some(teamId)))
    case Restricted(limit, floor) =>
      && a.sourceKind == Some(FadRestricted) && a.fadOrigin == Some(CandidateTieRestricted)
      && a.allocationStatus == Some(RestrictedActive) && a.restrictedAuctionId == Some(c.auctionId)
      && p.Some? && p.value.isActive && p.value.seasonId == a.seasonId && p.value.fadId == a.fadId
      && p.value.allocationId == a.fadAllocationId && p.value.auctionId == c.auctionId && p.value.teamId == c.teamId
      && p.value.managerEditLimit == limit == 1 && p.value.cooldownDurationMs == 4_500_000 && HasShape(floor)
      && floor == Offer(p.value.minimumTotalValueCents, p.value.minimumTermYears, p.value.minimumAavCents)
    case Fallback(floor) =>
      && a.sourceKind == Some(FadOpenRapid) && a.fadOrigin == Some(RestrictedNoImprovementFallback)
      && a.allocationStatus == Some(RestrictedFallbackOpen) && a.fallbackOpenAuctionId == Some(c.auctionId)
      && HasShape(floor)
      && floor == Offer(a.restrictedMinimumTotalCents, a.restrictedMinimumTermYears, a.restrictedMinimumAavCents)
  }

  /** An auction is of one kind at most, so the order in which kinds are looked for does not matter. */
  lemma KindIsUnique(c: Command, a: AuctionRow, p: Option<Participant>, kind: Context)
    ensures BidContext(c, a, p) == Some(kind) <==> IsOfKind(c, a, p, kind)
  {
  }

  // ---------- acceptance ----------

  /** The command comes from an authorized manager while the auction of its league is open. */
  predicate Timely(c: Command, isAuthorized: bool, a: AuctionRow) {
    && isAuthorized && a.leagueId == c.leagueId && a.isOpen
    && 0 <= a.openedAtMs <= 9_007_199_254_740_991 && a.openedAtMs <= c.occurredAtMs < a.resolvesAtMs
  }

  /** A restricted participant's columns are about the bid there is, or empty when there is none. */
  predicate Tracks(p: Option<Participant>, kind: Context, existing: Option<BidRow>) {
    kind.Restricted? && p.Some? ==>
      match existing
      case None =>
        && p.value.activeImprovementBidId.None? && p.value.firstImprovementAtMs.None?
        && p.value.currentCooldownAnchorAtMs.None? && p.value.improvementCommittedAtMs.None?
      case Some(b) =>
        && p.value.activeImprovementBidId == Some(b.id) && p.value.firstImprovementAtMs == Some(b.firstSubmittedAtMs)
        && p.value.currentCooldownAnchorAtMs == Some(b.lastEditedAtMs)
        && p.value.improvementCommittedAtMs == Some(b.lastEditedAtMs)
  }

  /** Two edits for the bid that started the auction, one for every other. */
  function EditsAllowed(a: AuctionRow, b: BidRow, kind: Context): int {
    match kind
    case Ordinary => if b.firstSubmittedAtMs == a.openedAtMs then 2 else 1
    case OpenRapid(bidId, teamId) => if b.id == bidId && b.teamId == teamId then 2 else 1
    case _ => 1
  }

  lemma NoKindNoBid(c: Command, isAuthorized: bool, a: AuctionRow, existing: Option<BidRow>, p: Option<Participant>)
    requires forall kind :: !IsOfKind(c, a, p, kind)
    ensures AssertAuctionBidState(c, isAuthorized, Some(a), existing, p).Err?
  {
    if BidContext(c, a, p).Some? { KindIsUnique(c, a, p, BidContext(c, a, p).value); }
    hide BidContext, SubmitBid, EditBid, IsOfKind;
  }

  /** When a submission is accepted, and what it leaves. */
  lemma SubmissionAcceptedExactly(c: Command, isAuthorized: bool, a: AuctionRow, p: Option<Participant>, kind: Context)
    requires IsOfKind(c, a, p, kind)
    ensures
      var r := AssertAuctionBidState(c, isAuthorized, Some(a), None, p);
      && (r.Ok? <==>
            && Timely(c, isAuthorized, a) && Tracks(p, kind, None) && c.expectedBidVersion.None?
            && WellFormed(c.aavCents, c.termYears, true) && Clears(c.aavCents, c.termYears, kind))
      && (r.Ok? ==>
            && r.value.action == Submitted
            && r.value.offer == Offer(c.aavCents * c.termYears, c.termYears, c.aavCents)
            && r.value.lowestOfferedAavCents == c.aavCents
            && r.value.lowestOfferedTotalValueCents == c.aavCents * c.termYears
            && r.value.firstSubmittedAtMs == r.value.lastEditedAtMs == c.occurredAtMs
            && r.value.editCount == 0 && r.value.nextVersion == 1)
  {
    KindIsUnique(c, a, p, kind);
    ValidMeansWellFormed(c.aavCents, c.termYears, true);
    if WellFormed(c.aavCents, c.termYears, true) { ClearsExactly(c.aavCents, c.termYears, true, kind); }
    hide BidContext, IsOfKind, ValidateBidOffer, ContextOfferError, WellFormed, Clears;
  }

  lemma LimitsAgree(c: Command, a: AuctionRow, b: BidRow, p: Option<Participant>, kind: Context)
    requires IsOfKind(c, a, p, kind)
    ensures EditLimit(b, a, kind) == EditsAllowed(a, b, kind)
  {
  }

  /** When an edit is accepted, and what it leaves. */
  lemma EditAcceptedExactly(c: Command, isAuthorized: bool, a: AuctionRow, b: BidRow, p: Option<Participant>,
                            kind: Context)
    requires IsOfKind(c, a, p, kind)
    ensures
      var r := AssertAuctionBidState(c, isAuthorized, Some(a), Some(b), p);
      && (r.Ok? <==>
            && Timely(c, isAuthorized, a) && Tracks(p, kind, Some(b))
            && b.auctionId == c.auctionId && b.teamId == c.teamId && b.isActive
            && c.expectedBidVersion == Some(b.version)
            && WellFormed(c.aavCents, c.termYears, kind.Restricted?) && Clears(c.aavCents, c.termYears, kind)
            && b.editCount < EditsAllowed(a, b, kind) && b.lastEditedAtMs + 4_500_000 <= c.occurredAtMs)
      && (r.Ok? ==>
            var total := c.aavCents * c.termYears;
            var lowest := if b.lowestOfferedTotalValueCents.Some? then b.lowestOfferedTotalValueCents.value
                          else b.totalValueCents;
            && r.value.action == Edited && r.value.offer == Offer(total, c.termYears, c.aavCents)
            && r.value.lowestOfferedAavCents ==
               (if c.aavCents < b.lowestOfferedAavCents then c.aavCents else b.lowestOfferedAavCents)
            && r.value.lowestOfferedTotalValueCents == (if total < lowest then total else lowest)
            && r.value.firstSubmittedAtMs == b.firstSubmittedAtMs && r.value.lastEditedAtMs == c.occurredAtMs
            && r.value.editCount == b.editCount + 1 && r.value.nextVersion == b.version + 1)
  {
    KindIsUnique(c, a, p, kind);
    LimitsAgree(c, a, b, p, kind);
    ValidMeansWellFormed(c.aavCents, c.termYears, kind.Restricted?);
    if WellFormed(c.aavCents, c.termYears, kind.Restricted?) {
      ClearsExactly(c.aavCents, c.termYears, kind.Restricted?, kind);
    }
    hide BidContext, IsOfKind, ValidateBidOffer, ContextOfferError, WellFormed, Clears, EditLimit, EditsAllowed;
  }

  /** The stored floor of a context is no contract. */
  predicate FloorIsMalformed(kind: Context) {
    (kind.Restricted? || kind.Fallback?) && !IsFloor(kind.floor)
  }

  lemma FloorErrors(aav: int, term: int, joining: bool, kind: Context)
    requires WellFormed(aav, term, joining)
    ensures
      match ContextOfferError(Offer(aav * term, term, aav), kind)
      case None => Clears(aav, term, kind)
      case Some(e) =>
        !Clears(aav, term, kind) && e == if FloorIsMalformed(kind) then CandidateFloorInvalid else ValueRejected
  {
    CanonicalOffer(aav, term, joining);
    match kind {
      case Restricted(_, floor) => CanonicalMeansFloor(floor);
      case Fallback(floor) => CanonicalMeansFloor(floor);
      case _ =>
    }
  }

  lemma MalformedOffers(aav: int, term: int, joining: bool)
    ensures ValidateBidOffer(aav, term, joining).Err? ==>
              (ValidateBidOffer(aav, term, joining).error == TermInvalid <==> !(1 <= term <= 3))
  {
  }

  /** The cause that a refusal names. */
  predicate IsCause(e: BidError, c: Command, isAuthorized: bool, a: AuctionRow, existing: Option<BidRow>,
                    p: Option<Participant>, kind: Context)
  {
    var joining := existing.None? || kind.Restricted?;
    match e
    case AuthorizationDenied => !isAuthorized
    case AuctionUnavailable =>
      || a.leagueId != c.leagueId || !a.isOpen || !(0 <= a.openedAtMs <= 9_007_199_254_740_991)
      || c.occurredAtMs < a.openedAtMs
    case WindowClosed => c.occurredAtMs >= a.resolvesAtMs
    case BidConflict =>
      || !Tracks(p, kind, existing)
      || (existing.Some?
          && (existing.value.auctionId != c.auctionId || existing.value.teamId != c.teamId || !existing.value.isActive))
    case VersionConflict => c.expectedBidVersion != (if existing.None? then None else Some(existing.value.version))
    case TermRejected => !(1 <= c.termYears <= 3)
    case ValueRejected =>
      !WellFormed(c.aavCents, c.termYears, joining)
      || (!Clears(c.aavCents, c.termYears, kind) && !FloorIsMalformed(kind))
    case CandidateFloorInvalid => FloorIsMalformed(kind)
    case EditLimitReached => existing.Some? && existing.value.editCount >= EditsAllowed(a, existing.value, kind)
    case CooldownActive => existing.Some? && c.occurredAtMs < existing.value.lastEditedAtMs + 4_500_000
    case CandidateBidInvalid => false
  }

  /** A command is refused for a cause that it really has. */
  lemma RefusedForCause(c: Command, isAuthorized: bool, a: AuctionRow, existing: Option<BidRow>,
                        p: Option<Participant>, kind: Context)
    requires IsOfKind(c, a, p, kind)
    requires AssertAuctionBidState(c, isAuthorized, Some(a), existing, p).Err?
    ensures IsCause(AssertAuctionBidState(c, isAuthorized, Some(a), existing, p).error, c, isAuthorized, a, existing,
                    p, kind)
  {
    var joining := existing.None? || kind.Restricted?;
    KindIsUnique(c, a, p, kind);
    if existing.Some? { LimitsAgree(c, a, existing.value, p, kind); }
    ValidMeansWellFormed(c.aavCents, c.termYears, joining);
    MalformedOffers(c.aavCents, c.termYears, joining);
    if WellFormed(c.aavCents, c.termYears, joining) { FloorErrors(c.aavCents, c.termYears, joining, kind); }
    hide BidContext, IsOfKind, ValidateBidOffer, ContextOfferError, WellFormed, Clears, FloorIsMalformed, EditLimit,
      EditsAllowed;
  }
}
