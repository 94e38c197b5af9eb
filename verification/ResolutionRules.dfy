/** What inspection, ranking and price say in plain figures, whatever the policies compute them with. */
module ResolutionRules {
  import opened Collections
  import opened Offers
  import opened Pricing
  import opened Resolution
  import opened ResolutionProperties

  // ---------- the ranking ----------

  /** A higher AAV; then a longer term; then an earlier first submission; then a lower id. */
  predicate Outranks(left: Bid, right: Bid) {
    || left.aavCents > right.aavCents
    || (left.aavCents == right.aavCents
        && (|| left.termYears > right.termYears
            || (left.termYears == right.termYears
                && (|| left.firstSubmittedAtMs < right.firstSubmittedAtMs
                    || (left.firstSubmittedAtMs == right.firstSubmittedAtMs && left.id < right.id)))))
  }

  lemma ComparisonMeansRank(left: Bid, right: Bid)
    ensures CompareOffers(left, right) < 0 <==> Outranks(left, right)
  {
  }

  /** The winner as it would have been, had it bid the price. */
  function Charged(a: Award): Bid {
    a.winner.(totalValueCents := a.price.totalValueCents, termYears := a.price.termYears, aavCents := a.price.aavCents)
  }

  /**
   * The ranks count from one, a bid outranks every bid ranked below it, the first is the winner and
   * the second its competitor, and charged the price the winner still outranks every other bid.
   */
  lemma RanksFollowTheOffers(auction: Auction, bids: seq<RawBid>, history: seq<HistoryEvent>)
    requires Evaluate(auction, bids, history).Won?
    ensures
      var o := Evaluate(auction, bids, history);
      && o.ranked != [] && o.award.winner == o.ranked[0].bid
      && o.award.competitor == (if |o.ranked| > 1 then Some(o.ranked[1].bid) else None)
      && (forall i :: 0 <= i < |o.ranked| ==> o.ranked[i].rank == i + 1)
      && (forall i, j :: 0 <= i < j < |o.ranked| ==> Outranks(o.ranked[i].bid, o.ranked[j].bid))
      && (forall i :: 1 <= i < |o.ranked| ==> Outranks(Charged(o.award), o.ranked[i].bid))
  {
    var o := Evaluate(auction, bids, history);
    var ranking := Ranking(auction, bids);
    RankingIsStrict(auction, bids);
    AwardIsStable(auction, bids, history);
    hide Evaluate, Ranking, CompareOffers, Outranks;
    forall i, j | 0 <= i < j < |o.ranked| ensures Outranks(o.ranked[i].bid, o.ranked[j].bid) {
      ComparisonMeansRank(ranking[i], ranking[j]);
    }
    forall i | 1 <= i < |o.ranked| ensures Outranks(Charged(o.award), o.ranked[i].bid) {
      ComparisonMeansRank(Charged(o.award), ranking[i]);
    }
  }

  // ---------- values ----------

  /**
   * A total that may stand for a term: a dollar a year at least, and whole dollars or, when the
   * contract is longer than a year, the same whole quarters of a dollar each year.
   */
  predicate Allowed(total: int, term: int) {
    && 1 <= term <= 3 && 100 * term <= total <= 9_007_199_254_740_991
    && (term == 1 || total % 100 == 0 || total % (25 * term) == 0)
  }

  /** The total divided by the term, halves rounded up. */
  function HalfUp(total: int, term: int): int
    requires 1 <= term <= 3
  {
    (2 * total + term) / (2 * term)
  }

  lemma QuartersOverTwoYears(total: nat)
    ensures total % 2 == 0 && total / 2 % 25 == 0 <==> total % 50 == 0
  {
  }

  lemma QuartersOverThreeYears(total: nat)
    ensures total % 3 == 0 && total / 3 % 25 == 0 <==> total % 75 == 0
  {
  }

  lemma RoundingIsHalfUp(total: nat, term: int)
    requires 1 <= term <= 3
    ensures RoundedAav(total, term) == HalfUp(total, term)
  {
    if term == 1 {} else if term == 2 {} else {}
  }

  lemma GridsMeanQuarters(total: nat, term: int)
    requires 1 <= term <= 3
    ensures OnLegacyGrid(total, term) || OnAavFirstGrid(total, term)
            <==> term == 1 || total % 100 == 0 || total % (25 * term) == 0
  {
    QuartersOverTwoYears(total);
    QuartersOverThreeYears(total);
  }

  lemma SubmittableMeansAllowed(total: int, term: int)
    ensures ValidateSubmittedValue(total, term).Ok? <==> Allowed(total, term)
    ensures Allowed(total, term) ==>
              var o := ValidateSubmittedValue(total, term).value;
              o.totalValueCents == total && o.termYears == term && o.aavCents == HalfUp(total, term)
  {
    if 1 <= term <= 3 && total >= 0 {
      RoundingIsHalfUp(total, term);
      GridsMeanQuarters(total, term);
    }
    hide RoundedAav, HalfUp, OnLegacyGrid, OnAavFirstGrid;
  }

  lemma RoundsWithinSafe(total: int, term: int)
    ensures Allowed(total, term) ==> 1 <= HalfUp(total, term) <= total
  {
  }

  // ---------- inspection ----------

  /** What a bid of a term has to reach when it is resolved. */
  function Minimum(term: int, isStartingBid: bool): int {
    if isStartingBid then 100 * term else if term == 1 then 150 else if term == 2 then 300 else 500
  }

  /** The defects of a bid row, in the order in which they are looked for. */
  datatype Defect = NoIds | OtherScope | NotActive | TeamGone | NoAuthority | BadOffer | BadLowestAav | BadLowestTotal
    | BadTime

  predicate Has(raw: RawBid, auction: Auction, d: Defect) {
    var total, term := raw.totalValueCents, raw.termYears;
    match d
    case NoIds => raw.id.None? || raw.leagueId.None? || raw.auctionId.None? || raw.teamId.None?
    case OtherScope => raw.leagueId != Some(auction.leagueId) || raw.auctionId != Some(auction.id)
    case NotActive => !raw.isActive
    case TeamGone => !raw.teamIsActive
    case NoAuthority => !raw.authorityValid
    case BadOffer => !Allowed(total, term) || total < Minimum(term, raw.isStartingBid)
    case BadLowestAav => 1 <= term <= 3 && !(1 <= raw.lowestOfferedAavCents <= HalfUp(total, term))
    case BadLowestTotal => !(1 <= raw.lowestOfferedTotalValueCents <= total)
    case BadTime => !(0 <= raw.firstSubmittedAtMs <= 8_640_000_000_000_000)
  }

  function Place(d: Defect): nat {
    match d
    case NoIds => 0 case OtherScope => 1 case NotActive => 2 case TeamGone => 3 case NoAuthority => 4
    case BadOffer => 5 case BadLowestAav => 6 case BadLowestTotal => 7 case BadTime => 8
  }

  function ReasonFor(d: Defect): Reason {
    match d
    case NoIds => BidInvalid
    case OtherScope => BidScopeInvalid
    case NotActive => BidInactive
    case TeamGone => TeamInactive
    case NoAuthority => AuthorityInvalid
    case BadOffer => OfferInvalid
    case BadLowestAav => LowestAavInvalid
    case BadLowestTotal => LowestTotalInvalid
    case BadTime => BidInvalid
  }

  /** The reason a bid is skipped for is a defect it has, and it has none that is looked for earlier. */
  lemma SkippedForItsFirstDefect(raw: RawBid, auction: Auction) returns (d: Defect)
    requires InspectBid(raw, auction).Err?
    ensures InspectBid(raw, auction).error == Skipped(raw.id, ReasonFor(d)) && Has(raw, auction, d)
    ensures forall other :: Has(raw, auction, other) ==> Place(d) <= Place(other)
  {
    SubmittableMeansAllowed(raw.totalValueCents, raw.termYears);
    RoundsWithinSafe(raw.totalValueCents, raw.termYears);
    hide ValidateSubmittedValue, HalfUp;
    d :=
      if Has(raw, auction, NoIds) then NoIds
      else if Has(raw, auction, OtherScope) then OtherScope
      else if Has(raw, auction, NotActive) then NotActive
      else if Has(raw, auction, TeamGone) then TeamGone
      else if Has(raw, auction, NoAuthority) then NoAuthority
      else if Has(raw, auction, BadOffer) then BadOffer
      else if Has(raw, auction, BadLowestAav) then BadLowestAav
      else if Has(raw, auction, BadLowestTotal) then BadLowestTotal
      else BadTime;
  }

  /** A bid passes exactly when it has no defect, and then keeps its figures. */
  lemma PassingMeansNoDefect(raw: RawBid, auction: Auction)
    ensures InspectBid(raw, auction).Ok? <==> forall d :: !Has(raw, auction, d)
    ensures InspectBid(raw, auction).Ok? ==>
              var b := InspectBid(raw, auction).value;
              && raw.id == Some(b.id) && raw.teamId == Some(b.teamId)
              && b.totalValueCents == raw.totalValueCents && b.termYears == raw.termYears
              && 1 <= b.termYears <= 3 && b.aavCents == HalfUp(raw.totalValueCents, raw.termYears)
              && b.lowestOfferedAavCents == raw.lowestOfferedAavCents
              && b.lowestOfferedTotalValueCents == raw.lowestOfferedTotalValueCents
              && b.firstSubmittedAtMs == raw.firstSubmittedAtMs
  {
    SubmittableMeansAllowed(raw.totalValueCents, raw.termYears);
    RoundsWithinSafe(raw.totalValueCents, raw.termYears);
    hide ValidateSubmittedValue, HalfUp;
    if InspectBid(raw, auction).Err? {
      var d := SkippedForItsFirstDefect(raw, auction);
    } else {
      assert Allowed(raw.totalValueCents, raw.termYears);
      forall d ensures !Has(raw, auction, d) {
        match d case NoIds => case OtherScope => case NotActive => case TeamGone => case NoAuthority =>
        case BadOffer => case BadLowestAav => case BadLowestTotal => case BadTime =>
      }
    }
  }

  // ---------- the price ----------

  lemma PriceOfAward(auction: Auction, bids: seq<RawBid>, history: seq<HistoryEvent>)
    requires Evaluate(auction, bids, history).Won?
    ensures
      var a := Evaluate(auction, bids, history).award;
      && PriceOf(a.winner, a.competitor, history, auction.resolvesAtMs, NoFloor()) == Ok(a.price)
      && a.finalAavCents == a.price.aavCents
  {
    AwardIsStable(auction, bids, history);
    hide PriceOf, Ranking, CompareOffers, SortBy, SkippedBids;
  }

  /**
   * The price is what the winner itself once offered between its first submission and the deadline,
   * or, when no event repeats that one, its submitted offer; it is an allowed value, and its AAV is
   * at most that of the bid.
   */
  lemma PriceWasOffered(auction: Auction, bids: seq<RawBid>, history: seq<HistoryEvent>)
    requires Evaluate(auction, bids, history).Won?
    ensures
      var a := Evaluate(auction, bids, history).award;
      && a.winner.firstSubmittedAtMs <= a.price.occurredAtMs <= auction.resolvesAtMs
      && Allowed(a.price.totalValueCents, a.price.termYears)
      && a.price.aavCents == HalfUp(a.price.totalValueCents, a.price.termYears)
      && a.finalAavCents == a.price.aavCents <= a.winner.aavCents
      && (|| (exists e :: e in history && e.Event? && e.bidId == a.winner.id
                          && (e.teamId.None? || e.teamId == Some(a.winner.teamId))
                          && e.totalValueCents == Some(a.price.totalValueCents)
                          && e.termYears == Some(a.price.termYears) && e.occurredAtMs == Some(a.price.occurredAtMs))
          || (a.price.totalValueCents == a.winner.totalValueCents && a.price.termYears == a.winner.termYears
              && a.price.occurredAtMs == a.winner.firstSubmittedAtMs
              && forall e :: e in history ==> !RepeatsBid(e, a.winner, auction.resolvesAtMs)))
  {
    var a := Evaluate(auction, bids, history).award;
    PriceOfAward(auction, bids, history);
    PriceIsSound(a.winner, a.competitor, history, auction.resolvesAtMs, NoFloor(), a.price);
    SubmittableMeansAllowed(a.price.totalValueCents, a.price.termYears);
    hide Evaluate, PriceOf, Allowed, HalfUp, CompareOffers, ValidateSubmittedValue;
  }

  lemma WinnerTimesAreSafe(auction: Auction, bids: seq<RawBid>, history: seq<HistoryEvent>)
    requires Evaluate(auction, bids, history).Won?
    ensures IsSafe(auction.resolvesAtMs)
    ensures IsSafe(Evaluate(auction, bids, history).award.winner.firstSubmittedAtMs)
  {
    AwardIsStable(auction, bids, history);
    RankedBidsPassedInspection(auction, bids, Ranking(auction, bids)[0]);
    hide Ranking, PriceOf, SkippedBids, SortBy, Numbered, CompareOffers;
  }

  /** The offer in an event of the winner, made in time, allowed, and no dearer a year than its bid. */
  predicate CouldBeCharged(auction: Auction, winner: Bid, e: HistoryEvent) {
    && e.Event? && e.bidId == winner.id && (e.teamId.None? || e.teamId == Some(winner.teamId))
    && e.totalValueCents.Some? && e.termYears.Some? && e.occurredAtMs.Some?
    && winner.firstSubmittedAtMs <= e.occurredAtMs.value <= auction.resolvesAtMs
    && Allowed(e.totalValueCents.value, e.termYears.value)
    && HalfUp(e.totalValueCents.value, e.termYears.value) <= winner.aavCents
  }

  /** The winner as it would have been with the offer in this event. */
  function WithOffer(winner: Bid, e: HistoryEvent): Bid
    requires e.Event? && e.totalValueCents.Some? && e.termYears.Some? && 1 <= e.termYears.value <= 3
  {
    winner.(totalValueCents := e.totalValueCents.value, termYears := e.termYears.value,
            aavCents := HalfUp(e.totalValueCents.value, e.termYears.value))
  }

  /** A lower AAV; then a shorter term; then an earlier offer, or the same. */
  predicate NoDearer(price: PricedOffer, aavCents: int, termYears: int, occurredAtMs: int) {
    || price.aavCents < aavCents
    || (price.aavCents == aavCents
        && (price.termYears < termYears || (price.termYears == termYears && price.occurredAtMs <= occurredAtMs)))
  }

  /** Of its own offers with which the winner would still have outranked every other bid, the price is the cheapest. */
  lemma PriceIsCheapest(auction: Auction, bids: seq<RawBid>, history: seq<HistoryEvent>, e: HistoryEvent)
    requires Evaluate(auction, bids, history).Won? && e in history
    requires CouldBeCharged(auction, Evaluate(auction, bids, history).award.winner, e)
    requires
      var o := Evaluate(auction, bids, history);
      |o.ranked| > 1 ==> Outranks(WithOffer(o.award.winner, e), o.ranked[1].bid)
    ensures
      NoDearer(Evaluate(auction, bids, history).award.price, HalfUp(e.totalValueCents.value, e.termYears.value),
               e.termYears.value, e.occurredAtMs.value)
  {
    var a := Evaluate(auction, bids, history).award;
    RanksFollowTheOffers(auction, bids, history);
    PriceOfAward(auction, bids, history);
    WinnerTimesAreSafe(auction, bids, history);
    SubmittableMeansAllowed(e.totalValueCents.value, e.termYears.value);
    var contract := ValidateSubmittedValue(e.totalValueCents.value, e.termYears.value).value;
    assert Submittable(contract) && Candidate(a.winner, contract) == WithOffer(a.winner, e);
    hide Evaluate, PriceOf, Allowed, HalfUp, CompareOffers, ValidateSubmittedValue, Outranks, Candidate, WithOffer;
    if a.competitor.Some? { ComparisonMeansRank(WithOffer(a.winner, e), a.competitor.value); }
    NoCheaperWinningOffer(a.winner, a.competitor, history, auction.resolvesAtMs, NoFloor(), a.price, e, contract);
  }

  // ---------- which outcome ----------

  /** The instants that decide, and the outcome each of them leads to. */
  lemma OutcomeFollowsTheClock(auction: Auction, bids: seq<RawBid>, history: seq<HistoryEvent>)
    requires 0 <= auction.nowMs <= 8_640_000_000_000_000 && 0 <= auction.resolvesAtMs <= 8_640_000_000_000_000
    requires auction.playoffsStartAtMs.Some? ==> 0 <= auction.playoffsStartAtMs.value <= 8_640_000_000_000_000
    ensures
      var o := Evaluate(auction, bids, history);
      var playoffs := auction.playoffsStartAtMs.Some? && auction.playoffsStartAtMs.value <= auction.nowMs;
      var dueAtMs := if playoffs then auction.playoffsStartAtMs.value else auction.resolvesAtMs;
      && o != AuctionInvalid
      && (o.NotOpen? <==> !auction.isOpen)
      && (o.BeforeDeadline? <==> auction.isOpen && !playoffs && auction.nowMs < auction.resolvesAtMs)
      && (o.SeasonClosed? <==> auction.isOpen && playoffs)
      && (o.PlayerUnavailable? <==>
            auction.isOpen && !playoffs && auction.resolvesAtMs <= auction.nowMs && auction.playerOwned)
      && (o.NoWinner? || o.Won? || o.PricingThrew? <==>
            auction.isOpen && !playoffs && auction.resolvesAtMs <= auction.nowMs && !auction.playerOwned)
      && (o.PricingThrew? || o.dueAtMs == dueAtMs)
  {
    hide Ranking, PriceOf, SkippedBids, SortBy, Numbered;
  }

  /** Timestamps out of range refuse the auction. */
  lemma InvalidExactly(auction: Auction, bids: seq<RawBid>, history: seq<HistoryEvent>)
    ensures Evaluate(auction, bids, history) == AuctionInvalid <==>
              || !(0 <= auction.nowMs <= 8_640_000_000_000_000)
              || !(0 <= auction.resolvesAtMs <= 8_640_000_000_000_000)
              || (auction.playoffsStartAtMs.Some?
                  && !(0 <= auction.playoffsStartAtMs.value <= 8_640_000_000_000_000))
  {
    hide Ranking, PriceOf, SkippedBids, SortBy, Numbered;
  }

  // ---------- the skipped bids ----------

  /** Entries without an id come first, then by id; an id's entries by the place of their reason in the alphabet. */
  predicate ListedBefore(a: Skipped, b: Skipped) {
    match (a.bidId, b.bidId)
    case (None, Some(_)) => true
    case (Some(_), None) => false
    case (Some(x), Some(y)) => x < y || (x == y && ReasonRank(a.reason) <= ReasonRank(b.reason))
    case (None, None) => ReasonRank(a.reason) <= ReasonRank(b.reason)
  }

  lemma ListedMeans(a: Skipped, b: Skipped)
    ensures SkippedLeq(a, b) <==> ListedBefore(a, b)
  {
  }

  /** The skipped bids are listed in that order, with a winner and without. */
  lemma SkippedAreListed(auction: Auction, bids: seq<RawBid>, history: seq<HistoryEvent>)
    requires Evaluate(auction, bids, history).Won? || Evaluate(auction, bids, history).NoWinner?
    ensures
      var skipped := Evaluate(auction, bids, history).skipped;
      && multiset(skipped) == multiset(SkippedBids(auction, bids))
      && forall i, j :: 0 <= i < j < |skipped| ==> ListedBefore(skipped[i], skipped[j])
  {
    var skipped := SortBy(SkippedBids(auction, bids), SkippedLeq);
    assert Evaluate(auction, bids, history).skipped == skipped by {
      hide Ranking, PriceOf, SkippedBids, SortBy, Numbered;
    }
    hide Evaluate, SortBy, InsertBy, SkippedBids, Collect, ListedBefore;
    SkippedLeqIsTotal();
    SortBySorts(SkippedBids(auction, bids), SkippedLeq);
    forall i, j | 0 <= i < j < |skipped| ensures ListedBefore(skipped[i], skipped[j]) {
      assert SkippedLeq(skipped[i], skipped[j]);
      ListedMeans(skipped[i], skipped[j]);
    }
  }
}
