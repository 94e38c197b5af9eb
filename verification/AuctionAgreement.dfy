/** From accepted bid runs to the resolution of their auction. */
module AuctionAgreement {
  import opened Collections
  import opened Offers
  import opened Pricing
  import opened Resolution
  import opened ResolutionProperties
  import BidPolicy
  import opened BidRuns

  /** One team's bid with its whole accepted life, and what the resolution reads beside it. */
  datatype Life = Life(entry: Entry, edits: seq<Step>, teamIsActive: bool, authorityValid: bool)

  predicate IsAccepted(a: BidPolicy.AuctionRow, life: Life) {
    Run(a, life.entry, life.edits).Some?
  }

  function Rows(a: BidPolicy.AuctionRow, life: Life): (rows: seq<BidPolicy.BidRow>)
    requires IsAccepted(a, life)
    ensures rows != []
  {
    Run(a, life.entry, life.edits).value
  }

  function Final(a: BidPolicy.AuctionRow, life: Life): BidPolicy.BidRow
    requires IsAccepted(a, life)
  {
    Rows(a, life)[|Rows(a, life)| - 1]
  }

  /** The bid as the resolution loads it: it is the starting bid when it opened the auction. */
  function Loaded(a: BidPolicy.AuctionRow, life: Life): RawBid
    requires IsAccepted(a, life)
  {
    var row := Final(a, life);
    RawBid(Some(row.id), Some(a.leagueId), Some(row.auctionId), Some(row.teamId),
           row.isActive, life.teamIsActive, life.authorityValid, row.totalValueCents, row.termYears,
           row.lowestOfferedAavCents,
           match row.lowestOfferedTotalValueCents case Some(n) => n case None => 0,
           row.firstSubmittedAtMs, life.entry.Opening?)
  }

  /** The event appended for an accepted row. */
  function EventOf(row: BidPolicy.BidRow): HistoryEvent {
    Event(row.id, Some(row.teamId), Some(row.totalValueCents), Some(row.termYears), Some(row.lastEditedAtMs))
  }

  /** The auction that is resolved is the one the bids were made in. */
  predicate SameAuction(a: BidPolicy.AuctionRow, auction: Auction) {
    a.resolvesAtMs == auction.resolvesAtMs && a.leagueId == auction.leagueId
  }

  ghost predicate ComeFrom(a: BidPolicy.AuctionRow, bids: seq<RawBid>, lives: seq<Life>) {
    && (forall k :: 0 <= k < |lives| ==> IsAccepted(a, lives[k]))
    && (forall raw :: raw in bids ==> exists k :: 0 <= k < |lives| && raw == Loaded(a, lives[k]))
  }

  /** The history holds the events of these lives, and only those. */
  ghost predicate IsHistoryOf(a: BidPolicy.AuctionRow, history: seq<HistoryEvent>, lives: seq<Life>)
    requires forall k :: 0 <= k < |lives| ==> IsAccepted(a, lives[k])
  {
    && (forall k, i :: 0 <= k < |lives| && 0 <= i < |Rows(a, lives[k])| ==>
                         EventOf(Rows(a, lives[k])[i]) in history)
    && (forall e :: e in history && e.Event? ==>
                      exists k, i :: 0 <= k < |lives| && 0 <= i < |Rows(a, lives[k])|
                                     && e == EventOf(Rows(a, lives[k])[i]))
  }

  /** The bid id is the primary key of a bid. */
  ghost predicate DistinctBidIds(a: BidPolicy.AuctionRow, lives: seq<Life>)
    requires forall k :: 0 <= k < |lives| ==> IsAccepted(a, lives[k])
  {
    forall k, l :: 0 <= k < l < |lives| ==> Final(a, lives[k]).id != Final(a, lives[l]).id
  }

  lemma SoundRowIsPositive(a: BidPolicy.AuctionRow, row: BidPolicy.BidRow)
    requires RowIsSound(a, row)
    ensures 1 <= row.totalValueCents <= MAX_SAFE_INTEGER && 1 <= OfferIn(row).aavCents <= row.totalValueCents
    ensures 0 <= row.lastEditedAtMs < a.resolvesAtMs
  {
  }

  /** What inspection needs of a life's last row. */
  lemma FinalRowFacts(a: BidPolicy.AuctionRow, life: Life)
    requires IsAccepted(a, life)
    ensures
      var row := Final(a, life);
      && IsTerm(row.termYears) && row.totalValueCents >= row.termYears * 100 && row.isActive
      && ValidateSubmittedValue(row.totalValueCents, row.termYears) == Ok(OfferIn(row))
      && 1 <= row.lowestOfferedAavCents <= OfferIn(row).aavCents <= MAX_SAFE_INTEGER
      && row.lowestOfferedTotalValueCents.Some?
      && 1 <= row.lowestOfferedTotalValueCents.value <= row.totalValueCents <= MAX_SAFE_INTEGER
      && 0 <= row.firstSubmittedAtMs < a.resolvesAtMs
  {
    hide Run;
    RunIsCoherent(a, life.entry, life.edits);
    var rows := Rows(a, life);
    var row := Final(a, life);
    var i :| 0 <= i < |rows| && OfferIn(rows[i]).aavCents == row.lowestOfferedAavCents;
    var j :| 0 <= j < |rows| && rows[j].totalValueCents == row.lowestOfferedTotalValueCents.value;
    SoundRowIsPositive(a, rows[0]);
    SoundRowIsPositive(a, rows[i]);
    SoundRowIsPositive(a, rows[j]);
    SoundRowIsPositive(a, row);
  }

  /**
   * An accepted bid fails inspection for its value only: with an active team and valid
   * authority it is ranked or found duplicate exactly when it started the auction or its
   * last offer would have been accepted as a join.
   */
  lemma InspectionOfAcceptedBid(a: BidPolicy.AuctionRow, life: Life, auction: Auction)
    requires IsAccepted(a, life) && SameAuction(a, auction) && IsCanonical(auction)
    requires life.teamIsActive && life.authorityValid && Final(a, life).auctionId == auction.id
    ensures
      var row := Final(a, life);
      var inspected := InspectBid(Loaded(a, life), auction);
      && (inspected.Ok? <==> life.entry.Opening? || row.totalValueCents >= JoiningMinimum(row.termYears))
      && (inspected.Err? ==> inspected.error == Skipped(Some(row.id), OfferInvalid))
  {
    hide Run, RoundedAav, ValidateSubmittedValue, OnAavFirstGrid;
    FinalRowFacts(a, life);
  }

  /** The winner's figures are those of its life's last row. */
  predicate Represents(winner: Bid, row: BidPolicy.BidRow) {
    && Consistent(winner)
    && winner.id == row.id && winner.teamId == row.teamId
    && winner.firstSubmittedAtMs == row.firstSubmittedAtMs
    && winner.totalValueCents == row.totalValueCents && winner.termYears == row.termYears
    && winner.lowestOfferedAavCents == row.lowestOfferedAavCents
  }

  lemma LifeOfRanked(a: BidPolicy.AuctionRow, lives: seq<Life>, auction: Auction, bids: seq<RawBid>, b: Bid)
    returns (k: nat)
    requires ComeFrom(a, bids, lives) && b in Ranking(auction, bids)
    ensures k < |lives|
    ensures Represents(b, Final(a, lives[k]))
  {
    hide Ranking, Run;
    RankedBidsPassedInspection(auction, bids, b);
    var raw :| raw in bids && InspectBid(raw, auction) == Ok(b);
    k :| 0 <= k < |lives| && raw == Loaded(a, lives[k]);
  }

  /** Whatever the history, pricing never throws on bids that came from accepted runs. */
  lemma PricingNeverThrowsOnAcceptedBids(a: BidPolicy.AuctionRow, lives: seq<Life>, auction: Auction,
                                         bids: seq<RawBid>, history: seq<HistoryEvent>)
    requires ComeFrom(a, bids, lives) && SameAuction(a, auction)
    ensures !Evaluate(auction, bids, history).PricingThrew?
  {
    hide Evaluate, Ranking, Run;
    PricingThrowsOnlyForLateWinners(auction, bids, history);
    var ranking := Ranking(auction, bids);
    if ranking != [] {
      var k := LifeOfRanked(a, lives, auction, bids, ranking[0]);
      RunIsCoherent(a, lives[k].entry, lives[k].edits);
      var rows := Rows(a, lives[k]);
      assert RowIsSound(a, rows[0]);
    }
  }

  /** The same AAV, whether read from a row or from a consistent bid with that offer. */
  lemma SameOffer(b: Bid, row: BidPolicy.BidRow)
    requires Consistent(b) && b.totalValueCents == row.totalValueCents && b.termYears == row.termYears
    ensures IsTerm(row.termYears) && row.totalValueCents >= 0
    ensures OfferIn(row) == Offer(b.totalValueCents, b.termYears, b.aavCents)
  {
  }

  lemma {:induction false} TimesIncrease(a: BidPolicy.AuctionRow, rows: seq<BidPolicy.BidRow>, i: nat)
    requires RowsAreCoherent(a, rows) && i < |rows|
    ensures rows[0].lastEditedAtMs <= rows[i].lastEditedAtMs
  {
    if i > 0 { TimesIncrease(a, rows, i - 1); }
  }

  lemma PriceReachesLowest(a: BidPolicy.AuctionRow, lives: seq<Life>, k: nat, auction: Auction,
                           history: seq<HistoryEvent>, winner: Bid, price: PricedOffer)
    requires SameAuction(a, auction) && IsCanonical(auction) && k < |lives|
    requires forall l :: 0 <= l < |lives| ==> IsAccepted(a, lives[l])
    requires IsHistoryOf(a, history, lives) && Represents(winner, Final(a, lives[k]))
    requires PriceOf(winner, None, history, auction.resolvesAtMs, NoFloor()) == Ok(price)
    ensures price.aavCents <= winner.lowestOfferedAavCents
  {
    hide Run, PriceOf;
    RunIsCoherent(a, lives[k].entry, lives[k].edits);
    var rows := Rows(a, lives[k]);
    var row := Final(a, lives[k]);
    var i :| 0 <= i < |rows| && OfferIn(rows[i]).aavCents == row.lowestOfferedAavCents;
    assert RowIsSound(a, rows[i]) && RowIsSound(a, row);
    SameOffer(winner, row);
    TimesIncrease(a, rows, i);
    assert EventOf(rows[i]) in history;
    NoCheaperWinningOffer(winner, None, history, auction.resolvesAtMs, NoFloor(), price,
                          EventOf(rows[i]), OfferIn(rows[i]));
  }

  ghost predicate DistinctBidIdsAmongAccepted(a: BidPolicy.AuctionRow, lives: seq<Life>) {
    (forall l :: 0 <= l < |lives| ==> IsAccepted(a, lives[l])) && DistinctBidIds(a, lives)
  }

  lemma PriceCameFromOwnLife(a: BidPolicy.AuctionRow, lives: seq<Life>, k: nat, history: seq<HistoryEvent>,
                             winner: Bid, price: PricedOffer)
    requires k < |lives| && (forall l :: 0 <= l < |lives| ==> IsAccepted(a, lives[l]))
    requires IsHistoryOf(a, history, lives) && DistinctBidIds(a, lives)
    requires
      var row := Final(a, lives[k]);
      winner.id == row.id && winner.totalValueCents == row.totalValueCents && winner.termYears == row.termYears
    requires
      || (exists e :: e in history && e.Event? && e.bidId == winner.id
                      && e.totalValueCents == Some(price.totalValueCents) && e.termYears == Some(price.termYears))
      || (price.totalValueCents == winner.totalValueCents && price.termYears == winner.termYears)
    ensures exists m :: 0 <= m < |Rows(a, lives[k])|
                        && Rows(a, lives[k])[m].totalValueCents == price.totalValueCents
                        && Rows(a, lives[k])[m].termYears == price.termYears
  {
    hide Run;
    var rows := Rows(a, lives[k]);
    if price.totalValueCents == winner.totalValueCents && price.termYears == winner.termYears {
      assert rows[|rows| - 1] == Final(a, lives[k]);
    } else {
      var e :| e in history && e.Event? && e.bidId == winner.id
               && e.totalValueCents == Some(price.totalValueCents) && e.termYears == Some(price.termYears);
      var l, m :| 0 <= l < |lives| && 0 <= m < |Rows(a, lives[l])| && e == EventOf(Rows(a, lives[l])[m]);
      RunIsCoherent(a, lives[l].entry, lives[l].edits);
      assert Rows(a, lives[l])[m].id == Final(a, lives[l]).id;
      assert l == k;
      assert rows[m].totalValueCents == price.totalValueCents && rows[m].termYears == price.termYears;
    }
  }

  lemma PriceIsNotBelowLowest(a: BidPolicy.AuctionRow, lives: seq<Life>, k: nat, auction: Auction,
                              history: seq<HistoryEvent>, winner: Bid, price: PricedOffer)
    requires k < |lives| && DistinctBidIdsAmongAccepted(a, lives)
    requires IsHistoryOf(a, history, lives) && Represents(winner, Final(a, lives[k]))
    requires PriceOf(winner, None, history, auction.resolvesAtMs, NoFloor()) == Ok(price)
    ensures winner.lowestOfferedAavCents <= price.aavCents
  {
    hide Run, PriceOf;
    RunIsCoherent(a, lives[k].entry, lives[k].edits);
    var rows := Rows(a, lives[k]);
    PriceIsSound(winner, None, history, auction.resolvesAtMs, NoFloor(), price);
    PriceCameFromOwnLife(a, lives, k, history, winner, price);
    var m :| 0 <= m < |rows| && rows[m].totalValueCents == price.totalValueCents
            && rows[m].termYears == price.termYears;
    assert RowIsSound(a, rows[m]);
    assert OfferIn(rows[m]).aavCents == price.aavCents;
  }

  lemma AwardIsPriced(auction: Auction, bids: seq<RawBid>, history: seq<HistoryEvent>)
    requires Evaluate(auction, bids, history).Won?
    ensures
      var award := Evaluate(auction, bids, history).award;
      && IsCanonical(auction) && award.winner in Ranking(auction, bids)
      && PriceOf(award.winner, award.competitor, history, auction.resolvesAtMs, NoFloor()) == Ok(award.price)
  {
  }

  /**
   * A winner without a competitor pays exactly the lowest AAV it ever offered: the
   * accumulator the edits kept and the price found in the history agree.
   */
  lemma UncontestedWinnerPaysItsLowest(a: BidPolicy.AuctionRow, lives: seq<Life>, auction: Auction,
                                       bids: seq<RawBid>, history: seq<HistoryEvent>)
    requires ComeFrom(a, bids, lives) && SameAuction(a, auction)
    requires IsHistoryOf(a, history, lives) && DistinctBidIds(a, lives)
    requires Evaluate(auction, bids, history).Won?
    requires Evaluate(auction, bids, history).award.competitor.None?
    ensures
      var award := Evaluate(auction, bids, history).award;
      award.finalAavCents == award.winner.lowestOfferedAavCents
  {
    hide Evaluate, Ranking, Run, PriceOf, IsHistoryOf, DistinctBidIds, Consistent;
    AwardIsStable(auction, bids, history);
    AwardIsPriced(auction, bids, history);
    var award := Evaluate(auction, bids, history).award;
    var k := LifeOfRanked(a, lives, auction, bids, award.winner);
    PriceReachesLowest(a, lives, k, auction, history, award.winner, award.price);
    PriceIsNotBelowLowest(a, lives, k, auction, history, award.winner, award.price);
  }

  lemma SettlingOneBadBid(auction: Auction, raw: RawBid, entry: Skipped)
    requires InspectBid(raw, auction) == Err(entry)
    ensures Settle(auction, [raw], []) == NoWinner(DueAt(auction), [entry])
  {
    hide InspectBid;
    var bids := [raw];
    assert bids[..|bids| - 1] == [];
    assert Passing(auction)(raw) == None && Failing(auction)(raw) == Some(entry);
    assert ValidBids(auction, bids) == Collect([], Passing(auction)) + Kept(None) == [];
    assert Collect(bids, Failing(auction)) == [entry];
    var skipped := SkippedBids(auction, bids);
    assert skipped == [entry] && skipped[..|skipped| - 1] == [];
    assert SortBy(skipped, SkippedLeq) == InsertBy([], entry, SkippedLeq) == [entry];
  }

  // ---------- the gap between editing and resolving ----------

  /** An ordinary auction open over [0, resolvesAtMs). */
  function PlainAuction(resolvesAtMs: int): BidPolicy.AuctionRow {
    BidPolicy.AuctionRow(1, 1, true, 0, resolvesAtMs, None, None, None, None, None, 0, 0, None, None,
                         0, None, None, None, None, 0, 0, 0)
  }

  /** Team 5 joins auction 7 at 1.50 for a year and, a cooldown later, edits its bid to 1.00. */
  function LoweredBid(): Life {
    Life(Joining(Step(BidPolicy.Command(7, 3, 1, 5, 150, 1, None, 1), true, None)),
         [Step(BidPolicy.Command(7, 3, 1, 5, 100, 1, Some(1), 1 + BidPolicy.COOLDOWN_MS), true, None)],
         true, true)
  }

  lemma LoweredBidIsAccepted(resolvesAtMs: int)
    requires 2 * BidPolicy.COOLDOWN_MS < resolvesAtMs <= MAX_TIMESTAMP
    ensures
      var a := PlainAuction(resolvesAtMs);
      && IsAccepted(a, LoweredBid())
      && LoweredBid().entry.Joining? && LoweredBid().teamIsActive && LoweredBid().authorityValid
      && Final(a, LoweredBid()) == BidPolicy.BidRow(3, 7, 5, true, 100, 1, 100, Some(100), 1,
                                                   1 + BidPolicy.COOLDOWN_MS, 1, 2)
  {
    var a, life := PlainAuction(resolvesAtMs), LoweredBid();
    var edits := life.edits;
    var first := Begin(a, life.entry);
    var start := Run(a, life.entry, []);
    assert first.Some? && start == Some([first.value]);
    var second := Continue(a, first.value, edits[0]);
    assert second.Some?;
    assert edits[..|edits| - 1] == [] && start.value[|start.value| - 1] == first.value;
    assert Run(a, life.entry, edits) == Some(start.value + [second.value]);
  }

  /** Both commands are accepted, and the resolution then skips the bid as though it were malformed. */
  lemma AcceptedEditThatResolutionSkips(resolvesAtMs: int)
    requires 2 * BidPolicy.COOLDOWN_MS < resolvesAtMs <= MAX_TIMESTAMP
    ensures
      var a := PlainAuction(resolvesAtMs);
      var auction := Auction(7, 1, 9, true, resolvesAtMs, None, false, resolvesAtMs);
      && IsAccepted(a, LoweredBid())
      && Evaluate(auction, [Loaded(a, LoweredBid())], [])
         == NoWinner(resolvesAtMs, [Skipped(Some(3), OfferInvalid)])
  {
    hide Run, Settle, LoweredBid;
    var a := PlainAuction(resolvesAtMs);
    var auction := Auction(7, 1, 9, true, resolvesAtMs, None, false, resolvesAtMs);
    LoweredBidIsAccepted(resolvesAtMs);
    var raw := Loaded(a, LoweredBid());
    assert InspectBid(raw, auction) == Err(Skipped(Some(3), OfferInvalid));
    SettlingOneBadBid(auction, raw, Skipped(Some(3), OfferInvalid));
  }
}
