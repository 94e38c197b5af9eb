/**
 * One bid over its life: it starts with an opening offer or a submission, and every
 * accepted edit replaces the stored row and appends an event to the auction's history.
 */
module BidRuns {
  import opened Collections
  import opened Offers
  import opened BidPolicy

  /** A command as it reaches the policy, with what the repository has read for it. */
  datatype Step = Step(command: Command, isAuthorized: bool, participant: Option<Participant>)

  /** A bid either opens its auction (at the instant the auction opens) or joins it. */
  datatype Entry =
    | Opening(bidId: Id, auctionId: Id, teamId: Id, aavCents: int, termYears: int)
    | Joining(step: Step)

  /** The row written for a policy result. */
  function Stored(bidId: Id, c: Command, s: BidState): BidRow {
    BidRow(bidId, c.auctionId, c.teamId, true, s.offer.totalValueCents, s.offer.termYears,
           s.lowestOfferedAavCents, Some(s.lowestOfferedTotalValueCents),
           s.firstSubmittedAtMs, s.lastEditedAtMs, s.editCount, s.nextVersion)
  }

  function Begin(a: AuctionRow, e: Entry): Option<BidRow> {
    match e
    case Opening(bidId, auctionId, teamId, aav, term) =>
      (match ValidateOpeningBid(aav, term)
       case Err(_) => None
       case Ok(offer) =>
         if !IsSafe(a.openedAtMs) || a.openedAtMs < 0 || a.openedAtMs >= a.resolvesAtMs then None
         else Some(BidRow(bidId, auctionId, teamId, true, offer.totalValueCents, offer.termYears,
                          offer.aavCents, Some(offer.totalValueCents), a.openedAtMs, a.openedAtMs, 0, 1)))
    case Joining(step) =>
      (match AssertAuctionBidState(step.command, step.isAuthorized, Some(a), None, step.participant)
       case Err(_) => None
       case Ok(s) => Some(Stored(step.command.bidId, step.command, s)))
  }

  function Continue(a: AuctionRow, row: BidRow, step: Step): Option<BidRow> {
    match AssertAuctionBidState(step.command, step.isAuthorized, Some(a), Some(row), step.participant)
    case Err(_) => None
    case Ok(s) => Some(Stored(row.id, step.command, s))
  }

  /** The rows after each accepted command, oldest first; None when a command was refused. */
  function Run(a: AuctionRow, entry: Entry, edits: seq<Step>): (rows: Option<seq<BidRow>>)
    ensures rows.Some? ==> |rows.value| == |edits| + 1
  {
    if edits == [] then
      match Begin(a, entry)
      case None => None
      case Some(row) => Some([row])
    else
      match Run(a, entry, edits[..|edits| - 1])
      case None => None
      case Some(rows) =>
        match Continue(a, rows[|rows| - 1], edits[|edits| - 1])
        case None => None
        case Some(row) => Some(rows + [row])
  }

  function OfferIn(row: BidRow): Offer
    requires IsTerm(row.termYears) && row.totalValueCents >= 0
  {
    Offer(row.totalValueCents, row.termYears, RoundedAav(row.totalValueCents, row.termYears))
  }

  /** What every accepted row holds, whichever command wrote it. */
  predicate RowIsSound(a: AuctionRow, row: BidRow) {
    && IsTerm(row.termYears) && row.totalValueCents >= 0
    && Submittable(OfferIn(row))
    && a.openedAtMs <= row.lastEditedAtMs < a.resolvesAtMs
    && IsSafe(a.openedAtMs) && 0 <= a.openedAtMs
  }

  /** The rows of a run, related to each other. */
  ghost predicate RowsAreCoherent(a: AuctionRow, rows: seq<BidRow>) {
    && rows != []
    && (forall i :: 0 <= i < |rows| ==> RowIsSound(a, rows[i]))
    && (forall i :: 0 <= i < |rows| ==>
                      && rows[i].version == 1 + i && rows[i].editCount == i
                      && rows[i].id == rows[0].id && rows[i].teamId == rows[0].teamId
                      && rows[i].auctionId == rows[0].auctionId && rows[i].isActive
                      && rows[i].firstSubmittedAtMs == rows[0].lastEditedAtMs)
    && (forall i :: 0 <= i < |rows| - 1 ==> rows[i].lastEditedAtMs + COOLDOWN_MS <= rows[i + 1].lastEditedAtMs)
  }

  /** Both accumulators are attained minima over everything offered so far. */
  ghost predicate LowestAreMinima(rows: seq<BidRow>)
    requires forall i :: 0 <= i < |rows| ==> IsTerm(rows[i].termYears) && rows[i].totalValueCents >= 0
  {
    rows != [] ==>
      var last := rows[|rows| - 1];
      && last.lowestOfferedTotalValueCents.Some?
      && (forall i :: 0 <= i < |rows| ==>
                        && last.lowestOfferedAavCents <= OfferIn(rows[i]).aavCents
                        && last.lowestOfferedTotalValueCents.value <= rows[i].totalValueCents)
      && (exists i :: 0 <= i < |rows| && OfferIn(rows[i]).aavCents == last.lowestOfferedAavCents)
      && (exists i :: 0 <= i < |rows| && rows[i].totalValueCents == last.lowestOfferedTotalValueCents.value)
  }

  lemma BeginIsSound(a: AuctionRow, entry: Entry)
    requires Begin(a, entry).Some?
    ensures RowsAreCoherent(a, [Begin(a, entry).value]) && LowestAreMinima([Begin(a, entry).value])
  {
    var row := Begin(a, entry).value;
    var rows := [row];
    match entry {
      case Opening(_, _, _, aav, term) =>
        AcceptedOfferIsSubmittable(aav, term, false);
        assert OfferIn(row) == ValidateOpeningBid(aav, term).value by { ProductGrid(aav, term); }
      case Joining(step) =>
        var aav, term := step.command.aavCents, step.command.termYears;
        AcceptedOfferIsSubmittable(aav, term, true);
        assert OfferIn(row) == ValidateBidOffer(aav, term, true).value by { ProductGrid(aav, term); }
    }
    assert OfferIn(rows[0]).aavCents == rows[0].lowestOfferedAavCents;
  }

  lemma ContinueIsSound(a: AuctionRow, row: BidRow, step: Step)
    requires Continue(a, row, step).Some? && IsSafe(a.openedAtMs) && 0 <= a.openedAtMs
    ensures
      var next := Continue(a, row, step).value;
      && RowIsSound(a, next)
      && next.version == row.version + 1 && next.editCount == row.editCount + 1
      && next.id == row.id && next.teamId == row.teamId && next.auctionId == row.auctionId && next.isActive
      && next.firstSubmittedAtMs == row.firstSubmittedAtMs
      && row.lastEditedAtMs + COOLDOWN_MS <= next.lastEditedAtMs
      && next.lowestOfferedAavCents == Min(row.lowestOfferedAavCents, OfferIn(next).aavCents)
      && (row.lowestOfferedTotalValueCents.Some? ==>
            next.lowestOfferedTotalValueCents
            == Some(Min(row.lowestOfferedTotalValueCents.value, next.totalValueCents)))
      && exists context ::
           && BidContext(step.command, a, step.participant) == Some(context)
           && row.editCount < EditLimit(row, a, context)
  {
  }

  lemma ExtendCoherent(a: AuctionRow, rows: seq<BidRow>, next: BidRow)
    requires RowsAreCoherent(a, rows) && RowIsSound(a, next)
    requires
      var row := rows[|rows| - 1];
      && next.version == row.version + 1 && next.editCount == row.editCount + 1
      && next.id == row.id && next.teamId == row.teamId && next.auctionId == row.auctionId && next.isActive
      && next.firstSubmittedAtMs == row.firstSubmittedAtMs
      && row.lastEditedAtMs + COOLDOWN_MS <= next.lastEditedAtMs
    ensures RowsAreCoherent(a, rows + [next])
  {
  }

  lemma ExtendMinima(rows: seq<BidRow>, next: BidRow)
    requires rows != [] && IsTerm(next.termYears) && next.totalValueCents >= 0
    requires forall i :: 0 <= i < |rows| ==> IsTerm(rows[i].termYears) && rows[i].totalValueCents >= 0
    requires LowestAreMinima(rows)
    requires
      var row := rows[|rows| - 1];
      && next.lowestOfferedAavCents == Min(row.lowestOfferedAavCents, OfferIn(next).aavCents)
      && next.lowestOfferedTotalValueCents
         == Some(Min(row.lowestOfferedTotalValueCents.value, next.totalValueCents))
    ensures LowestAreMinima(rows + [next])
  {
    hide RoundedAav;
    var all := rows + [next];
    var n := |rows|;
    assert all[n] == next && forall i :: 0 <= i < n ==> all[i] == rows[i];
    var i :| 0 <= i < n && OfferIn(rows[i]).aavCents == rows[n - 1].lowestOfferedAavCents;
    var j :| 0 <= j < n && rows[j].totalValueCents == rows[n - 1].lowestOfferedTotalValueCents.value;
    var i' := if OfferIn(next).aavCents < OfferIn(rows[i]).aavCents then n else i;
    var j' := if next.totalValueCents < rows[j].totalValueCents then n else j;
    assert OfferIn(all[i']).aavCents == next.lowestOfferedAavCents;
    assert all[j'].totalValueCents == next.lowestOfferedTotalValueCents.value;
  }

  /**
   * Over every run of accepted commands: versions and edit counts count up in step, the
   * first submission time and the identity never change, every time lies in the window,
   * successive times are a cooldown apart, and both accumulators are minima of the run.
   */
  lemma {:induction false} RunIsCoherent(a: AuctionRow, entry: Entry, edits: seq<Step>)
    requires Run(a, entry, edits).Some?
    ensures RowsAreCoherent(a, Run(a, entry, edits).value)
    ensures LowestAreMinima(Run(a, entry, edits).value)
    decreases |edits|
  {
    if edits == [] {
      BeginIsSound(a, entry);
    } else {
      var rows := Run(a, entry, edits[..|edits| - 1]).value;
      RunIsCoherent(a, entry, edits[..|edits| - 1]);
      var last := rows[|rows| - 1];
      hide Continue;
      ContinueIsSound(a, last, edits[|edits| - 1]);
      var next := Continue(a, last, edits[|edits| - 1]).value;
      ExtendCoherent(a, rows, next);
      ExtendMinima(rows, next);
      assert Run(a, entry, edits).value == rows + [next];
    }
  }

  /** Whether a bid counts as its auction's starter is fixed by the row that began it. */
  predicate Starts(a: AuctionRow, first: BidRow) {
    || ((a.sourceKind.None? || a.sourceKind == Some(OrdinaryWeekly)) && first.firstSubmittedAtMs == a.openedAtMs)
    || (IsNominatedRapid(a) && Some(first.id) == a.fadStarterBidId && Some(first.teamId) == a.fadStarterTeamId)
  }

  lemma LimitIsFixed(a: AuctionRow, first: BidRow, row: BidRow, step: Step)
    requires row.id == first.id && row.teamId == first.teamId && row.firstSubmittedAtMs == first.firstSubmittedAtMs
    requires BidContext(step.command, a, step.participant).Some?
    ensures
      EditLimit(row, a, BidContext(step.command, a, step.participant).value) <= if Starts(a, first) then 2 else 1
  {
  }

  /** A starter is edited at most twice in its life, every other bid at most once. */
  lemma {:induction false} EditsAreLimited(a: AuctionRow, entry: Entry, edits: seq<Step>)
    requires Run(a, entry, edits).Some?
    ensures
      var rows := Run(a, entry, edits).value;
      |edits| <= if Starts(a, rows[0]) then 2 else 1
  {
    if edits != [] {
      var n := |edits| - 1;
      var rows := Run(a, entry, edits[..n]).value;
      hide Continue, RowIsSound;
      RunIsCoherent(a, entry, edits[..n]);
      ContinueIsSound(a, rows[n], edits[n]);
      LimitIsFixed(a, rows[0], rows[n], edits[n]);
    }
  }
}
