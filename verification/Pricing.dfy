/**
 * The price a winning team pays: the lowest offer it really made in time that
 * still beats the best competing bid.
 */
module Pricing {
  import opened Collections
  import opened Offers

  /** A bid that passed inspection. */
  datatype Bid = Bid(id: Id, teamId: Id, totalValueCents: int, termYears: int, aavCents: int,
                     lowestOfferedAavCents: int, lowestOfferedTotalValueCents: int,
                     firstSubmittedAtMs: int)

  /** An accepted bid event. Values that are absent or not numbers in the stored event are None. */
  datatype HistoryEvent =
    | Blank
    | Event(bidId: Id, teamId: Option<Id>, totalValueCents: Option<int>, termYears: Option<int>,
            occurredAtMs: Option<int>)

  datatype MadeOffer = MadeOffer(totalValueCents: Option<int>, termYears: Option<int>, occurredAtMs: Option<int>)

  datatype PricedOffer = PricedOffer(totalValueCents: int, termYears: int, aavCents: int, occurredAtMs: int)

  datatype PricingError = NoActualOffer

  // ---------- ranking ----------

  /** Negative when `left` ranks ahead: higher AAV, longer term, earlier submission, lower id. */
  function CompareOffers(left: Bid, right: Bid): int {
    if right.aavCents != left.aavCents then right.aavCents - left.aavCents
    else if right.termYears != left.termYears then right.termYears - left.termYears
    else if left.firstSubmittedAtMs != right.firstSubmittedAtMs then
      left.firstSubmittedAtMs - right.firstSubmittedAtMs
    else left.id - right.id
  }

  predicate RankLeq(left: Bid, right: Bid) {
    CompareOffers(left, right) <= 0
  }

  lemma RankLeqIsTotal()
    ensures TotalPreorder(RankLeq)
  {
  }

  // ---------- the specification ----------

  /** The offer in an event, when the event belongs to the winner. */
  function Own(winner: Bid): HistoryEvent -> Option<MadeOffer> {
    (e: HistoryEvent) =>
      if e.Event? && e.bidId == winner.id && (e.teamId.None? || e.teamId.value == winner.teamId)
      then Some(MadeOffer(e.totalValueCents, e.termYears, e.occurredAtMs))
      else None
  }

  predicate InTime(o: MadeOffer, winner: Bid, dueAtMs: int) {
    o.occurredAtMs.Some? && IsSafe(o.occurredAtMs.value)
    && winner.firstSubmittedAtMs <= o.occurredAtMs.value <= dueAtMs
  }

  predicate IsCurrent(o: MadeOffer, winner: Bid, dueAtMs: int) {
    && o.totalValueCents == Some(winner.totalValueCents)
    && o.termYears == Some(winner.termYears)
    && InTime(o, winner, dueAtMs)
  }

  function CurrentOffer(winner: Bid): MadeOffer {
    MadeOffer(Some(winner.totalValueCents), Some(winner.termYears), Some(winner.firstSubmittedAtMs))
  }

  predicate HasCurrent(own: seq<MadeOffer>, winner: Bid, dueAtMs: int) {
    exists o | o in own :: IsCurrent(o, winner, dueAtMs)
  }

  function OffersOf(winner: Bid, history: seq<HistoryEvent>, dueAtMs: int): seq<MadeOffer> {
    var own := Collect(history, Own(winner));
    own + if HasCurrent(own, winner, dueAtMs) then [] else [CurrentOffer(winner)]
  }

  function Candidate(winner: Bid, contract: Offer): Bid {
    winner.(totalValueCents := contract.totalValueCents, termYears := contract.termYears,
            aavCents := contract.aavCents)
  }

  /** The priced form of an offer the winner could be charged, or None. */
  function Qualify(winner: Bid, competitor: Option<Bid>, dueAtMs: int, meetsFloor: Bid -> bool)
    : MadeOffer -> Option<PricedOffer>
  {
    (o: MadeOffer) =>
      if o.totalValueCents.None? || o.termYears.None? then None
      else
        match ValidateSubmittedValue(o.totalValueCents.value, o.termYears.value)
        case Err(_) => None
        case Ok(contract) =>
          if !InTime(o, winner, dueAtMs) then None
          else if contract.aavCents > winner.aavCents
                  || !meetsFloor(Candidate(winner, contract))
                  || (competitor.Some? && CompareOffers(Candidate(winner, contract), competitor.value) >= 0)
          then None
          else Some(PricedOffer(contract.totalValueCents, contract.termYears, contract.aavCents,
                                o.occurredAtMs.value))
  }

  function EligibleOffers(winner: Bid, competitor: Option<Bid>, history: seq<HistoryEvent>, dueAtMs: int,
                          meetsFloor: Bid -> bool): seq<PricedOffer>
  {
    Collect(OffersOf(winner, history, dueAtMs), Qualify(winner, competitor, dueAtMs, meetsFloor))
  }

  /** Lower AAV, then shorter term, then earlier. */
  predicate PriceLeq(left: PricedOffer, right: PricedOffer) {
    || left.aavCents < right.aavCents
    || (left.aavCents == right.aavCents
        && (|| left.termYears < right.termYears
            || (left.termYears == right.termYears && left.occurredAtMs <= right.occurredAtMs)))
  }

  function PriceOf(winner: Bid, competitor: Option<Bid>, history: seq<HistoryEvent>, dueAtMs: int,
                   meetsFloor: Bid -> bool): Result<PricedOffer, PricingError>
  {
    var eligible := EligibleOffers(winner, competitor, history, dueAtMs, meetsFloor);
    if eligible == [] then Err(NoActualOffer)
    else
      var sorted := SortBy(eligible, PriceLeq);
      if sorted == [] then Err(NoActualOffer) else Ok(sorted[0])
  }

  // ---------- what the price is ----------

  lemma PriceLeqIsTotal()
    ensures TotalPreorder(PriceLeq)
  {
  }

  lemma EligibleCameFromAnOffer(winner: Bid, competitor: Option<Bid>, history: seq<HistoryEvent>, dueAtMs: int,
                                meetsFloor: Bid -> bool, p: PricedOffer)
    returns (o: MadeOffer)
    requires p in EligibleOffers(winner, competitor, history, dueAtMs, meetsFloor)
    ensures o in OffersOf(winner, history, dueAtMs)
    ensures Qualify(winner, competitor, dueAtMs, meetsFloor)(o) == Some(p)
  {
    CollectMember(OffersOf(winner, history, dueAtMs), Qualify(winner, competitor, dueAtMs, meetsFloor), p);
    o :| o in OffersOf(winner, history, dueAtMs)
         && Qualify(winner, competitor, dueAtMs, meetsFloor)(o) == Some(p);
  }

  /** What it takes for an offer to qualify, read off its priced form. */
  lemma QualifiedOffer(winner: Bid, competitor: Option<Bid>, dueAtMs: int, meetsFloor: Bid -> bool,
                       o: MadeOffer, p: PricedOffer)
    requires Qualify(winner, competitor, dueAtMs, meetsFloor)(o) == Some(p)
    ensures o == MadeOffer(Some(p.totalValueCents), Some(p.termYears), Some(p.occurredAtMs))
    ensures InTime(o, winner, dueAtMs)
    ensures Submittable(Offer(p.totalValueCents, p.termYears, p.aavCents)) && p.aavCents <= winner.aavCents
    ensures
      var charged := Candidate(winner, Offer(p.totalValueCents, p.termYears, p.aavCents));
      meetsFloor(charged) && (competitor.Some? ==> CompareOffers(charged, competitor.value) < 0)
  {
    var contract := ValidateSubmittedValue(o.totalValueCents.value, o.termYears.value);
    assert contract.Ok?;
    assert contract.value == Offer(p.totalValueCents, p.termYears, p.aavCents);
    assert InTime(o, winner, dueAtMs) && o.occurredAtMs.value == p.occurredAtMs;
    assert o.totalValueCents.value == contract.value.totalValueCents;
    assert o.termYears.value == contract.value.termYears;
    match o
    case MadeOffer(total, term, at) =>
  }

  lemma OwnOfferCameFromAnEvent(winner: Bid, history: seq<HistoryEvent>, o: MadeOffer) returns (e: HistoryEvent)
    requires o in Collect(history, Own(winner))
    ensures e in history && e.Event? && e.bidId == winner.id
    ensures e.teamId.None? || e.teamId == Some(winner.teamId)
    ensures o == MadeOffer(e.totalValueCents, e.termYears, e.occurredAtMs)
  {
    CollectMember(history, Own(winner), o);
    e :| e in history && Own(winner)(e) == Some(o);
  }

  /** Two eligible offers with the same sort key are the same offer, so sorting leaves no choice. */
  lemma EligibleTiesAreEqual(winner: Bid, competitor: Option<Bid>, history: seq<HistoryEvent>, dueAtMs: int,
                             meetsFloor: Bid -> bool)
    ensures TiesAreEqual(EligibleOffers(winner, competitor, history, dueAtMs, meetsFloor), PriceLeq)
  {
    var eligible := EligibleOffers(winner, competitor, history, dueAtMs, meetsFloor);
    forall p, q | p in eligible && q in eligible && PriceLeq(p, q) && PriceLeq(q, p) ensures p == q {
      var o := EligibleCameFromAnOffer(winner, competitor, history, dueAtMs, meetsFloor, p);
      var o' := EligibleCameFromAnOffer(winner, competitor, history, dueAtMs, meetsFloor, q);
      QualifiedOffer(winner, competitor, dueAtMs, meetsFloor, o, p);
      QualifiedOffer(winner, competitor, dueAtMs, meetsFloor, o', q);
      AavAndTermDetermineTotal(Offer(p.totalValueCents, p.termYears, p.aavCents),
                               Offer(q.totalValueCents, q.termYears, q.aavCents));
    }
  }

  lemma PricesSort(eligible: seq<PricedOffer>)
    ensures SortedBy(SortBy(eligible, PriceLeq), PriceLeq)
    ensures multiset(SortBy(eligible, PriceLeq)) == multiset(eligible)
    ensures |SortBy(eligible, PriceLeq)| == |eligible|
  {
    PriceLeqIsTotal();
    SortBySorts(eligible, PriceLeq);
  }

  /** The price is the one least eligible offer; there is a price exactly when one is eligible. */
  lemma PriceIsLeastEligible(winner: Bid, competitor: Option<Bid>, history: seq<HistoryEvent>, dueAtMs: int,
                             meetsFloor: Bid -> bool)
    ensures
      var eligible := EligibleOffers(winner, competitor, history, dueAtMs, meetsFloor);
      var r := PriceOf(winner, competitor, history, dueAtMs, meetsFloor);
      && (r.Ok? <==> eligible != [])
      && |SortBy(eligible, PriceLeq)| == |eligible|
      && forall p :: r == Ok(p) <==> p in eligible && forall q :: q in eligible ==> PriceLeq(p, q)
  {
    hide Collect, SortBy, InsertBy, EligibleOffers;
    var eligible := EligibleOffers(winner, competitor, history, dueAtMs, meetsFloor);
    var sorted := SortBy(eligible, PriceLeq);
    PricesSort(eligible);
    SameMembers(eligible, sorted);
    EligibleTiesAreEqual(winner, competitor, history, dueAtMs, meetsFloor);
    if eligible != [] {
      forall q | q in eligible ensures PriceLeq(sorted[0], q) {
        var i :| 0 <= i < |sorted| && sorted[i] == q;
      }
    }
  }

  /** An event in which the winner made its submitted offer in time. */
  predicate RepeatsBid(e: HistoryEvent, winner: Bid, dueAtMs: int) {
    && e.Event? && e.bidId == winner.id && (e.teamId.None? || e.teamId == Some(winner.teamId))
    && e.totalValueCents == Some(winner.totalValueCents) && e.termYears == Some(winner.termYears)
    && e.occurredAtMs.Some? && IsSafe(e.occurredAtMs.value)
    && winner.firstSubmittedAtMs <= e.occurredAtMs.value <= dueAtMs
  }

  lemma CurrentIsKept(winner: Bid, history: seq<HistoryEvent>, dueAtMs: int, e: HistoryEvent)
    requires e in history && RepeatsBid(e, winner, dueAtMs)
    ensures HasCurrent(Collect(history, Own(winner)), winner, dueAtMs)
  {
    var o := MadeOffer(e.totalValueCents, e.termYears, e.occurredAtMs);
    assert Own(winner)(e) == Some(o);
    CollectMember(history, Own(winner), o);
    assert IsCurrent(o, winner, dueAtMs);
  }

  /**
   * The price was really offered by this bid in time (or is its current offer), costs no
   * more a year than what it submitted, meets the floor, and still beats the competitor.
   */
  lemma PriceIsSound(winner: Bid, competitor: Option<Bid>, history: seq<HistoryEvent>, dueAtMs: int,
                     meetsFloor: Bid -> bool, p: PricedOffer)
    requires PriceOf(winner, competitor, history, dueAtMs, meetsFloor) == Ok(p)
    ensures winner.firstSubmittedAtMs <= p.occurredAtMs <= dueAtMs
    ensures
      || (exists e :: e in history && e.Event? && e.bidId == winner.id
                      && (e.teamId.None? || e.teamId == Some(winner.teamId))
                      && e.totalValueCents == Some(p.totalValueCents) && e.termYears == Some(p.termYears)
                      && e.occurredAtMs == Some(p.occurredAtMs))
      || (p.totalValueCents == winner.totalValueCents && p.termYears == winner.termYears
          && p.occurredAtMs == winner.firstSubmittedAtMs
          && forall e :: e in history ==> !RepeatsBid(e, winner, dueAtMs))
    ensures Submittable(Offer(p.totalValueCents, p.termYears, p.aavCents)) && p.aavCents <= winner.aavCents
    ensures
      var charged := Candidate(winner, Offer(p.totalValueCents, p.termYears, p.aavCents));
      meetsFloor(charged) && (competitor.Some? ==> CompareOffers(charged, competitor.value) < 0)
  {
    PriceIsLeastEligible(winner, competitor, history, dueAtMs, meetsFloor);
    var o := EligibleCameFromAnOffer(winner, competitor, history, dueAtMs, meetsFloor, p);
    QualifiedOffer(winner, competitor, dueAtMs, meetsFloor, o, p);
    if o in Collect(history, Own(winner)) {
      var e := OwnOfferCameFromAnEvent(winner, history, o);
    } else {
      assert o == CurrentOffer(winner);
      forall e | e in history ensures !RepeatsBid(e, winner, dueAtMs) {
        if RepeatsBid(e, winner, dueAtMs) { CurrentIsKept(winner, history, dueAtMs, e); }
      }
    }
  }

  /** No offer the winner made in time that would also have won is cheaper than the price. */
  lemma NoCheaperWinningOffer(winner: Bid, competitor: Option<Bid>, history: seq<HistoryEvent>, dueAtMs: int,
                              meetsFloor: Bid -> bool, p: PricedOffer, e: HistoryEvent, contract: Offer)
    requires PriceOf(winner, competitor, history, dueAtMs, meetsFloor) == Ok(p)
    requires e in history && e.Event? && e.bidId == winner.id
    requires e.teamId.None? || e.teamId == Some(winner.teamId)
    requires e.totalValueCents == Some(contract.totalValueCents) && e.termYears == Some(contract.termYears)
    requires e.occurredAtMs.Some? && IsSafe(e.occurredAtMs.value)
    requires winner.firstSubmittedAtMs <= e.occurredAtMs.value <= dueAtMs
    requires Submittable(contract) && contract.aavCents <= winner.aavCents
    requires meetsFloor(Candidate(winner, contract))
    requires competitor.Some? ==> CompareOffers(Candidate(winner, contract), competitor.value) < 0
    ensures PriceLeq(p, PricedOffer(contract.totalValueCents, contract.termYears, contract.aavCents,
                                    e.occurredAtMs.value))
  {
    var o := MadeOffer(e.totalValueCents, e.termYears, e.occurredAtMs);
    var q := PricedOffer(contract.totalValueCents, contract.termYears, contract.aavCents, e.occurredAtMs.value);
    assert Own(winner)(e) == Some(o);
    CollectMember(history, Own(winner), o);
    var qualify := Qualify(winner, competitor, dueAtMs, meetsFloor);
    assert qualify(o) == Some(q);
    CollectMember(OffersOf(winner, history, dueAtMs), qualify, q);
    PriceIsLeastEligible(winner, competitor, history, dueAtMs, meetsFloor);
  }

  /** A bid whose stored figures agree with its offer. */
  predicate Consistent(winner: Bid) {
    && Submittable(Offer(winner.totalValueCents, winner.termYears, winner.aavCents))
    && IsSafe(winner.firstSubmittedAtMs)
  }

  lemma CurrentOfferQualifies(winner: Bid, competitor: Option<Bid>, history: seq<HistoryEvent>, dueAtMs: int,
                              meetsFloor: Bid -> bool)
    requires Consistent(winner) && meetsFloor(winner) && winner.firstSubmittedAtMs <= dueAtMs
    requires competitor.Some? ==> CompareOffers(winner, competitor.value) < 0
    ensures EligibleOffers(winner, competitor, history, dueAtMs, meetsFloor) != []
  {
    hide Collect, CompareOffers, ValidateSubmittedValue;
    var offers := OffersOf(winner, history, dueAtMs);
    var own := Collect(history, Own(winner));
    var o := CurrentOffer(winner);
    if HasCurrent(own, winner, dueAtMs) {
      o :| o in own && IsCurrent(o, winner, dueAtMs);
    } else {
      assert offers[|own|] == CurrentOffer(winner);
    }
    assert o in offers && IsCurrent(o, winner, dueAtMs);
    var contract := Offer(winner.totalValueCents, winner.termYears, winner.aavCents);
    assert Candidate(winner, contract) == winner;
    var qualify := Qualify(winner, competitor, dueAtMs, meetsFloor);
    CollectMember(offers, qualify, qualify(o).value);
  }

  /** Pricing the best bid fails exactly when that bid was first submitted after the deadline. */
  lemma PricingFailsOnlyForLateBids(winner: Bid, competitor: Option<Bid>, history: seq<HistoryEvent>, dueAtMs: int,
                                    meetsFloor: Bid -> bool)
    requires Consistent(winner) && meetsFloor(winner)
    requires competitor.Some? ==> CompareOffers(winner, competitor.value) < 0
    ensures PriceOf(winner, competitor, history, dueAtMs, meetsFloor).Err?
            <==> winner.firstSubmittedAtMs > dueAtMs
  {
    hide PriceOf, EligibleOffers, Qualify, CompareOffers, Consistent;
    PriceIsLeastEligible(winner, competitor, history, dueAtMs, meetsFloor);
    var eligible := EligibleOffers(winner, competitor, history, dueAtMs, meetsFloor);
    if winner.firstSubmittedAtMs <= dueAtMs {
      CurrentOfferQualifies(winner, competitor, history, dueAtMs, meetsFloor);
    } else if eligible != [] {
      var o := EligibleCameFromAnOffer(winner, competitor, history, dueAtMs, meetsFloor, eligible[0]);
      QualifiedOffer(winner, competitor, dueAtMs, meetsFloor, o, eligible[0]);
      assert false;
    }
  }

  /** The price does not depend on the order of the history. */
  lemma PriceIgnoresHistoryOrder(winner: Bid, competitor: Option<Bid>, history: seq<HistoryEvent>,
                                 permuted: seq<HistoryEvent>, dueAtMs: int, meetsFloor: Bid -> bool)
    requires multiset(history) == multiset(permuted)
    ensures PriceOf(winner, competitor, history, dueAtMs, meetsFloor)
            == PriceOf(winner, competitor, permuted, dueAtMs, meetsFloor)
  {
    var own, own' := Collect(history, Own(winner)), Collect(permuted, Own(winner));
    CollectPermutation(history, permuted, Own(winner));
    SameMembers(own, own');
    var offers, offers' := OffersOf(winner, history, dueAtMs), OffersOf(winner, permuted, dueAtMs);
    assert multiset(offers) == multiset(offers');
    CollectPermutation(offers, offers', Qualify(winner, competitor, dueAtMs, meetsFloor));
    PriceLeqIsTotal();
    EligibleTiesAreEqual(winner, competitor, history, dueAtMs, meetsFloor);
    var eligible := EligibleOffers(winner, competitor, history, dueAtMs, meetsFloor);
    var eligible' := EligibleOffers(winner, competitor, permuted, dueAtMs, meetsFloor);
    SameMembers(eligible, eligible');
    SortPermutation(eligible, eligible', PriceLeq);
  }

  // ---------- the algorithm ----------

  method OwnOffers(winner: Bid, bidHistory: seq<HistoryEvent>) returns (own: seq<MadeOffer>)
    ensures own == Collect(bidHistory, Own(winner))
  {
    own := [];
    for i := 0 to |bidHistory|
      invariant own == Collect(bidHistory[..i], Own(winner))
    {
      CollectStep(bidHistory, i, Own(winner));
      var e := bidHistory[i];
      if e.Event? && e.bidId == winner.id && (e.teamId.None? || e.teamId.value == winner.teamId) {
        own := own + [MadeOffer(e.totalValueCents, e.termYears, e.occurredAtMs)];
      }
    }
    assert bidHistory[..|bidHistory|] == bidHistory;
  }

  method KeepEligible(winner: Bid, competitor: Option<Bid>, offers: seq<MadeOffer>, dueAtMs: int,
                      meetsFloor: Bid -> bool)
    returns (eligible: seq<PricedOffer>)
    ensures eligible == Collect(offers, Qualify(winner, competitor, dueAtMs, meetsFloor))
  {
    eligible := [];
    for i := 0 to |offers|
      invariant eligible == Collect(offers[..i], Qualify(winner, competitor, dueAtMs, meetsFloor))
    {
      CollectStep(offers, i, Qualify(winner, competitor, dueAtMs, meetsFloor));
      var o := offers[i];
      if o.totalValueCents.None? || o.termYears.None? { continue; }
      var contract := ValidateSubmittedValue(o.totalValueCents.value, o.termYears.value);
      if contract.Err? || !InTime(o, winner, dueAtMs) { continue; }
      var candidate := Candidate(winner, contract.value);
      if contract.value.aavCents > winner.aavCents || !meetsFloor(candidate) { continue; }
      if competitor.Some? && CompareOffers(candidate, competitor.value) >= 0 { continue; }
      eligible := eligible + [PricedOffer(contract.value.totalValueCents, contract.value.termYears,
                                          contract.value.aavCents, o.occurredAtMs.value)];
    }
    assert offers[..|offers|] == offers;
  }

  method SelectActualWinningOffer(winner: Bid, competitor: Option<Bid>, bidHistory: seq<HistoryEvent>,
                                  dueAtMs: int, meetsFloor: Bid -> bool)
    returns (r: Result<PricedOffer, PricingError>)
    ensures r == PriceOf(winner, competitor, bidHistory, dueAtMs, meetsFloor)
    ensures r.Ok? ==>
              forall q :: q in EligibleOffers(winner, competitor, bidHistory, dueAtMs, meetsFloor) ==>
                            PriceLeq(r.value, q)
  {
    var own := OwnOffers(winner, bidHistory);
    var hasCurrent := false;
    for i := 0 to |own|
      invariant hasCurrent <==> exists j :: 0 <= j < i && IsCurrent(own[j], winner, dueAtMs)
    {
      if IsCurrent(own[i], winner, dueAtMs) { hasCurrent := true; }
    }
    assert hasCurrent == HasCurrent(own, winner, dueAtMs);
    var offers := own + if hasCurrent then [] else [CurrentOffer(winner)];
    var eligible := KeepEligible(winner, competitor, offers, dueAtMs, meetsFloor);
    hide Collect, SortBy, Qualify, IsCurrent;
    PriceIsLeastEligible(winner, competitor, bidHistory, dueAtMs, meetsFloor);
    if eligible == [] { return Err(NoActualOffer); }
    eligible := SortBy(eligible, PriceLeq);
    return Ok(eligible[0]);
  }
}
