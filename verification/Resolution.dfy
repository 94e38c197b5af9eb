/**
 * Resolving an auction: inspect every bid, set duplicates aside, rank the rest and
 * price the winner.
 */
module Resolution {
  import opened Collections
  import opened Offers
  import opened Pricing

  const MAX_TIMESTAMP: int := 8_640_000_000_000_000

  /** The status column is reduced to whether it reads "open". */
  datatype Auction = Auction(id: Id, leagueId: Id, playerId: Id, isOpen: bool, resolvesAtMs: int,
                             playoffsStartAtMs: Option<int>, playerOwned: bool, nowMs: int)

  /** A bid row as it arrives. An id that is not a well-formed UUID is None. */
  datatype RawBid = RawBid(id: Option<Id>, leagueId: Option<Id>, auctionId: Option<Id>, teamId: Option<Id>,
                           isActive: bool, teamIsActive: bool, authorityValid: bool,
                           totalValueCents: int, termYears: int,
                           lowestOfferedAavCents: int, lowestOfferedTotalValueCents: int,
                           firstSubmittedAtMs: int, isStartingBid: bool)

  datatype Reason =
    | BidInvalid | BidScopeInvalid | BidDuplicate | BidInactive | TeamInactive | AuthorityInvalid
    | OfferInvalid | LowestAavInvalid | LowestTotalInvalid

  datatype Skipped = Skipped(bidId: Option<Id>, reason: Reason)

  datatype RankedBid = RankedBid(rank: nat, bid: Bid)

  datatype Award = Award(winner: Bid, competitor: Option<Bid>, price: PricedOffer, finalAavCents: int)

  datatype Outcome =
    | AuctionInvalid
    | NotOpen(dueAtMs: int)
    | BeforeDeadline(dueAtMs: int)
    | SeasonClosed(dueAtMs: int)
    | PlayerUnavailable(dueAtMs: int)
    | NoWinner(dueAtMs: int, skipped: seq<Skipped>)
    | Won(dueAtMs: int, ranked: seq<RankedBid>, skipped: seq<Skipped>, award: Award)
    | PricingThrew

  predicate IsTimestamp(t: int) {
    IsSafe(t) && 0 <= t <= MAX_TIMESTAMP
  }

  predicate IsCanonical(a: Auction) {
    && IsTimestamp(a.resolvesAtMs) && IsTimestamp(a.nowMs)
    && (a.playoffsStartAtMs.Some? ==> IsTimestamp(a.playoffsStartAtMs.value))
  }

  // ---------- inspection of one bid ----------

  /** The checks in this order; the first that fails gives the reason. */
  function InspectBid(raw: RawBid, auction: Auction): Result<Bid, Skipped> {
    if raw.id.None? then Err(Skipped(None, BidInvalid))
    else if raw.leagueId.None? || raw.auctionId.None? || raw.teamId.None? then Err(Skipped(raw.id, BidInvalid))
    else if raw.leagueId.value != auction.leagueId || raw.auctionId.value != auction.id then
      Err(Skipped(raw.id, BidScopeInvalid))
    else if !raw.isActive then Err(Skipped(raw.id, BidInactive))
    else if !raw.teamIsActive then Err(Skipped(raw.id, TeamInactive))
    else if !raw.authorityValid then Err(Skipped(raw.id, AuthorityInvalid))
    else
      match ValidateSubmittedValue(raw.totalValueCents, raw.termYears)
      case Err(_) => Err(Skipped(raw.id, OfferInvalid))
      case Ok(offer) =>
        if offer.totalValueCents < ResolutionMinimum(raw.termYears, raw.isStartingBid) then
          Err(Skipped(raw.id, OfferInvalid))
        else if !IsSafe(raw.lowestOfferedAavCents) || raw.lowestOfferedAavCents < 1
                || raw.lowestOfferedAavCents > offer.aavCents then
          Err(Skipped(raw.id, LowestAavInvalid))
        else if !IsSafe(raw.lowestOfferedTotalValueCents) || raw.lowestOfferedTotalValueCents < 1
                || raw.lowestOfferedTotalValueCents > offer.totalValueCents then
          Err(Skipped(raw.id, LowestTotalInvalid))
        else if !IsTimestamp(raw.firstSubmittedAtMs) then Err(Skipped(raw.id, BidInvalid))
        else
          Ok(Bid(raw.id.value, raw.teamId.value, offer.totalValueCents, offer.termYears, offer.aavCents,
                 raw.lowestOfferedAavCents, raw.lowestOfferedTotalValueCents, raw.firstSubmittedAtMs))
  }

  function Passing(auction: Auction): RawBid -> Option<Bid> {
    (raw: RawBid) => match InspectBid(raw, auction) case Ok(bid) => Some(bid) case Err(_) => None
  }

  function Failing(auction: Auction): RawBid -> Option<Skipped> {
    (raw: RawBid) => match InspectBid(raw, auction) case Ok(_) => None case Err(s) => Some(s)
  }

  // ---------- the specification of a resolution ----------

  function IdOf(): Bid -> Option<Id> { (b: Bid) => Some(b.id) }

  function TeamOf(): Bid -> Option<Id> { (b: Bid) => Some(b.teamId) }

  /** How often each id, and each team, occurs among the bids that passed inspection. */
  function IdCounts(valid: seq<Bid>): multiset<Id> { multiset(Collect(valid, IdOf())) }

  function TeamCounts(valid: seq<Bid>): multiset<Id> { multiset(Collect(valid, TeamOf())) }

  predicate IsDuplicate(b: Bid, ids: multiset<Id>, teams: multiset<Id>) {
    ids[b.id] > 1 || teams[b.teamId] > 1
  }

  function Unique(ids: multiset<Id>, teams: multiset<Id>): Bid -> Option<Bid> {
    (b: Bid) => if IsDuplicate(b, ids, teams) then None else Some(b)
  }

  function Repeated(ids: multiset<Id>, teams: multiset<Id>): Bid -> Option<Skipped> {
    (b: Bid) => if IsDuplicate(b, ids, teams) then Some(Skipped(Some(b.id), BidDuplicate)) else None
  }

  function ValidBids(auction: Auction, bids: seq<RawBid>): seq<Bid> {
    Collect(bids, Passing(auction))
  }

  function EligibleBids(auction: Auction, bids: seq<RawBid>): seq<Bid> {
    var valid := ValidBids(auction, bids);
    Collect(valid, Unique(IdCounts(valid), TeamCounts(valid)))
  }

  function SkippedBids(auction: Auction, bids: seq<RawBid>): seq<Skipped> {
    var valid := ValidBids(auction, bids);
    Collect(bids, Failing(auction)) + Collect(valid, Repeated(IdCounts(valid), TeamCounts(valid)))
  }

  /** The collation order of the reason codes. */
  function ReasonRank(r: Reason): nat {
    match r
    case AuthorityInvalid => 0
    case BidDuplicate => 1
    case BidInactive => 2
    case BidInvalid => 3
    case BidScopeInvalid => 4
    case LowestAavInvalid => 5
    case LowestTotalInvalid => 6
    case TeamInactive => 7
    case OfferInvalid => 8
  }

  /** A missing id sorts as the empty text, before every id. */
  function IdRank(id: Option<Id>): nat {
    match id case None => 0 case Some(i) => i + 1
  }

  predicate SkippedLeq(a: Skipped, b: Skipped) {
    || IdRank(a.bidId) < IdRank(b.bidId)
    || (IdRank(a.bidId) == IdRank(b.bidId) && ReasonRank(a.reason) <= ReasonRank(b.reason))
  }

  function Ranking(auction: Auction, bids: seq<RawBid>): seq<Bid> {
    SortBy(EligibleBids(auction, bids), RankLeq)
  }

  function Numbered(ranking: seq<Bid>): seq<RankedBid> {
    seq(|ranking|, i requires 0 <= i < |ranking| => RankedBid(i + 1, ranking[i]))
  }

  function NoFloor(): Bid -> bool { (b: Bid) => true }

  predicate PlayoffsDue(a: Auction) {
    a.playoffsStartAtMs.Some? && a.nowMs >= a.playoffsStartAtMs.value
  }

  function DueAt(a: Auction): int {
    if PlayoffsDue(a) then a.playoffsStartAtMs.value else a.resolvesAtMs
  }

  /** Ranks and prices once the auction is known to be due and available. */
  function Settle(auction: Auction, bids: seq<RawBid>, history: seq<HistoryEvent>): Outcome {
    var ranking := Ranking(auction, bids);
    var skipped := SortBy(SkippedBids(auction, bids), SkippedLeq);
    if ranking == [] then NoWinner(DueAt(auction), skipped)
    else
      var competitor := if |ranking| > 1 then Some(ranking[1]) else None;
      match PriceOf(ranking[0], competitor, history, auction.resolvesAtMs, NoFloor())
      case Err(_) => PricingThrew
      case Ok(price) =>
        match CalculateAavCents(price.totalValueCents, price.termYears)
        case Err(_) => PricingThrew
        case Ok(aav) => Won(DueAt(auction), Numbered(ranking), skipped, Award(ranking[0], competitor, price, aav))
  }

  function Evaluate(auction: Auction, bids: seq<RawBid>, history: seq<HistoryEvent>): Outcome {
    if !IsCanonical(auction) then AuctionInvalid
    else if !auction.isOpen then NotOpen(DueAt(auction))
    else if !PlayoffsDue(auction) && auction.nowMs < auction.resolvesAtMs then BeforeDeadline(DueAt(auction))
    else if PlayoffsDue(auction) then SeasonClosed(DueAt(auction))
    else if auction.playerOwned then PlayerUnavailable(DueAt(auction))
    else Settle(auction, bids, history)
  }

  // ---------- the algorithm ----------

  /** A tally in a map, as a JavaScript Map keeps it. */
  ghost predicate Tallies(counts: map<Id, nat>, bag: multiset<Id>) {
    forall id :: (if id in counts then counts[id] else 0) == bag[id]
  }

  method Count(ids: seq<Id>) returns (counts: map<Id, nat>)
    ensures Tallies(counts, multiset(ids))
  {
    counts := map[];
    for i := 0 to |ids|
      invariant Tallies(counts, multiset(ids[..i]))
    {
      assert ids[..i + 1] == ids[..i] + [ids[i]];
      counts := counts[ids[i] := (if ids[i] in counts then counts[ids[i]] else 0) + 1];
    }
    assert ids[..|ids|] == ids;
  }

  method InspectAll(auction: Auction, bids: seq<RawBid>) returns (valid: seq<Bid>, skipped: seq<Skipped>)
    ensures valid == ValidBids(auction, bids)
    ensures skipped == Collect(bids, Failing(auction))
  {
    valid, skipped := [], [];
    for i := 0 to |bids|
      invariant valid == Collect(bids[..i], Passing(auction))
      invariant skipped == Collect(bids[..i], Failing(auction))
    {
      CollectStep(bids, i, Passing(auction));
      CollectStep(bids, i, Failing(auction));
      match InspectBid(bids[i], auction) {
        case Ok(bid) => valid := valid + [bid];
        case Err(s) => skipped := skipped + [s];
      }
    }
    assert bids[..|bids|] == bids;
  }

  method SeparateDuplicates(valid: seq<Bid>) returns (eligible: seq<Bid>, repeated: seq<Skipped>)
    ensures eligible == Collect(valid, Unique(IdCounts(valid), TeamCounts(valid)))
    ensures repeated == Collect(valid, Repeated(IdCounts(valid), TeamCounts(valid)))
  {
    var idCounts := Count(Collect(valid, IdOf()));
    var teamCounts := Count(Collect(valid, TeamOf()));
    ghost var ids, teams := IdCounts(valid), TeamCounts(valid);
    eligible, repeated := [], [];
    for i := 0 to |valid|
      invariant eligible == Collect(valid[..i], Unique(ids, teams))
      invariant repeated == Collect(valid[..i], Repeated(ids, teams))
    {
      CollectStep(valid, i, Unique(ids, teams));
      CollectStep(valid, i, Repeated(ids, teams));
      var bid := valid[i];
      if (bid.id in idCounts && idCounts[bid.id] > 1) || (bid.teamId in teamCounts && teamCounts[bid.teamId] > 1) {
        repeated := repeated + [Skipped(Some(bid.id), BidDuplicate)];
      } else {
        eligible := eligible + [bid];
      }
    }
    assert valid[..|valid|] == valid;
  }

  method EvaluateAuctionResolution(auction: Auction, bids: seq<RawBid>, bidHistory: seq<HistoryEvent>)
    returns (outcome: Outcome)
    ensures outcome == Evaluate(auction, bids, bidHistory)
  {
    if !IsCanonical(auction) { return AuctionInvalid; }
    var playoffDue := auction.playoffsStartAtMs.Some? && auction.nowMs >= auction.playoffsStartAtMs.value;
    var scheduledDue := auction.nowMs >= auction.resolvesAtMs;
    var dueAtMs := if playoffDue then auction.playoffsStartAtMs.value else auction.resolvesAtMs;
    if !auction.isOpen { return NotOpen(dueAtMs); }
    if !playoffDue && !scheduledDue { return BeforeDeadline(dueAtMs); }
    if playoffDue { return SeasonClosed(dueAtMs); }
    if auction.playerOwned { return PlayerUnavailable(dueAtMs); }

    var valid, skipped := InspectAll(auction, bids);
    var eligible, repeated := SeparateDuplicates(valid);
    skipped := skipped + repeated;
    eligible := SortBy(eligible, RankLeq);
    skipped := SortBy(skipped, SkippedLeq);
    if eligible == [] { return NoWinner(dueAtMs, skipped); }
    var winner := eligible[0];
    var competitor := if |eligible| > 1 then Some(eligible[1]) else None;
    var priced := SelectActualWinningOffer(winner, competitor, bidHistory, auction.resolvesAtMs, NoFloor());
    if priced.Err? { return PricingThrew; }
    var finalAav := CalculateAavCents(priced.value.totalValueCents, priced.value.termYears);
    if finalAav.Err? { return PricingThrew; }
    return Won(dueAtMs, Numbered(eligible), skipped, Award(winner, competitor, priced.value, finalAav.value));
  }
}
