/**
 * Contract offers: a total in cents over one to three years, and the average
 * annual value (AAV) it rounds to. Every auction policy prices with these.
 */
module Offers {
  import opened Collections

  /** An offer that some policy has accepted. */
  datatype Offer = Offer(totalValueCents: int, termYears: int, aavCents: int)

  datatype OfferError = TermInvalid | ValueInvalid

  predicate IsTerm(term: int) {
    1 <= term <= 3
  }

  /** Rounds half up. */
  function RoundedAav(total: nat, term: int): int
    requires IsTerm(term)
  {
    total / term + if total % term * 2 >= term then 1 else 0
  }

  /** The average annual value as the resolution policy computes it, with its checks. */
  function CalculateAavCents(total: int, term: int): Result<int, OfferError> {
    if !IsSafe(total) || total < 1 || !IsTerm(term) then Err(ValueInvalid)
    else Ok(RoundedAav(total, term))
  }

  /** Legacy grid: whole hundreds of cents when the term is longer than a year. */
  predicate OnLegacyGrid(total: int, term: int) {
    term == 1 || total % 100 == 0
  }

  /** AAV-first grid: a whole number of quarters of a dollar each year. */
  predicate OnAavFirstGrid(total: int, term: int)
    requires IsTerm(term)
  {
    total % term == 0 && total / term % 25 == 0
  }

  function ValidateSubmittedValue(total: int, term: int): Result<Offer, OfferError> {
    if !IsTerm(term) then Err(ValueInvalid)
    else if !IsSafe(total) || total < term * 100 then Err(ValueInvalid)
    else if !OnLegacyGrid(total, term) && !OnAavFirstGrid(total, term) then Err(ValueInvalid)
    else Ok(Offer(total, term, RoundedAav(total, term)))
  }

  predicate Submittable(o: Offer) {
    ValidateSubmittedValue(o.totalValueCents, o.termYears) == Ok(o)
  }

  /** The total a bid must reach to join an auction it did not start. */
  function JoiningMinimum(term: int): int
    requires IsTerm(term)
  {
    if term == 1 then 150 else if term == 2 then 300 else 500
  }

  /** The total a bid must reach when the auction is resolved. */
  function ResolutionMinimum(term: int, isStartingBid: bool): int
    requires IsTerm(term)
  {
    if isStartingBid then term * 100 else JoiningMinimum(term)
  }

  /** The bid policy's check of a submitted (joining) or edited offer. */
  function ValidateBidOffer(aav: int, term: int, joining: bool): Result<Offer, OfferError> {
    if !IsTerm(term) then Err(TermInvalid)
    else if !IsSafe(aav) || aav < 100 || aav % 25 != 0 then Err(ValueInvalid)
    else
      var total := aav * term;
      var minimum := if joining then JoiningMinimum(term) else term * 100;
      if !IsSafe(total) || total < minimum then Err(ValueInvalid)
      else Ok(Offer(total, term, aav))
  }

  /** The creation policy's check of the offer that opens an auction. */
  function ValidateOpeningBid(aav: int, term: int): Result<Offer, OfferError> {
    if !IsTerm(term) then Err(TermInvalid)
    else if !IsSafe(aav) || aav < 100 || aav % 25 != 0 then Err(ValueInvalid)
    else if !IsSafe(aav * term) then Err(ValueInvalid)
    else Ok(Offer(aav * term, term, aav))
  }

  // ---------- rounding ----------

  /** Rounding up to a required AAV is a linear condition on the total. */
  lemma RoundingInverse(total: nat, term: int, required: int)
    requires IsTerm(term)
    ensures RoundedAav(total, term) >= required <==> 2 * total >= (2 * required - 1) * term
  {
  }

  /** On submittable offers the rounded AAV loses nothing: with the term it determines the total. */
  lemma AavAndTermDetermineTotal(a: Offer, b: Offer)
    requires Submittable(a) && Submittable(b)
    requires a.aavCents == b.aavCents && a.termYears == b.termYears
    ensures a == b
  {
  }

  // ---------- the least total that reaches a required AAV ----------

  /** A total `smallestValidTotalCents` may return: on the legacy grid, and reaching the AAV. */
  ghost predicate Reaches(total: int, required: int, term: int)
    requires IsTerm(term)
  {
    total >= term * 100 && OnLegacyGrid(total, term) && RoundedAav(total, term) >= required
  }

  /** The least legacy total, before the check against the safe-integer bound. */
  function LeastLegacyTotal(required: int, term: int): int
    requires IsTerm(term)
  {
    var raw := ((2 * required - 1) * term + 1) / 2;
    var floored := if raw < term * 100 then term * 100 else raw;
    if term > 1 then (floored + 99) / 100 * 100 else floored
  }

  lemma LeastLegacyTotalReaches(required: int, term: int)
    requires IsTerm(term) && required >= 1
    ensures Reaches(LeastLegacyTotal(required, term), required, term)
  {
  }

  lemma LeastLegacyTotalIsLeast(required: int, term: int, t: int)
    requires IsTerm(term) && required >= 1 && Reaches(t, required, term)
    ensures LeastLegacyTotal(required, term) <= t
  {
    RoundingInverse(t, term, required);
    var raw := ((2 * required - 1) * term + 1) / 2;
    assert raw <= t;
    if term > 1 {
      assert t == 100 * (t / 100);
    }
  }

  /**
   * The total is reassigned step by step. It is the least total on
   * the legacy grid that reaches the required AAV, or an error exactly when the
   * request is malformed or no such total is a safe integer.
   */
  method SmallestValidTotalCents(required: int, term: int) returns (r: Result<int, OfferError>)
    ensures r.Err? <==>
      || !IsSafe(required) || required < 1 || !IsTerm(term)
      || (forall t :: Reaches(t, required, term) ==> t > MAX_SAFE_INTEGER)
    ensures r.Ok? ==> Reaches(r.value, required, term) && r.value <= MAX_SAFE_INTEGER
    ensures r.Ok? ==> forall t :: Reaches(t, required, term) ==> r.value <= t
  {
    if !IsSafe(required) || required < 1 || !IsTerm(term) {
      return Err(ValueInvalid);
    }
    var rawNumerator := (2 * required - 1) * term;
    var total := (rawNumerator + 1) / 2;
    var minimum := term * 100;
    if total < minimum { total := minimum; }
    if term > 1 { total := (total + 99) / 100 * 100; }
    assert total == LeastLegacyTotal(required, term);
    LeastLegacyTotalReaches(required, term);
    forall t | Reaches(t, required, term) ensures total <= t {
      LeastLegacyTotalIsLeast(required, term, t);
    }
    if total > MAX_SAFE_INTEGER {
      return Err(ValueInvalid);
    }
    return Ok(total);
  }

  /** The least total on the newer, AAV-first grid that reaches the required AAV. */
  function LeastAavFirstTotal(required: int, term: int): int
    requires IsTerm(term)
  {
    (Max(required, 100) + 24) / 25 * 25 * term
  }

  lemma LeastAavFirstTotalReaches(required: int, term: int)
    requires IsTerm(term)
    ensures
      var total := LeastAavFirstTotal(required, term);
      total >= term * 100 && OnAavFirstGrid(total, term) && RoundedAav(total, term) >= required
  {
  }

  lemma LeastAavFirstTotalIsLeast(required: int, term: int, t: int)
    requires IsTerm(term) && t >= term * 100 && OnAavFirstGrid(t, term) && RoundedAav(t, term) >= required
    ensures LeastAavFirstTotal(required, term) <= t
  {
  }

  /** A request for which rounding up to whole hundreds skips no total of the newer grid. */
  predicate GridsAgree(required: int, term: int) {
    || term == 1
    || required <= 100
    || (term == 2 && (required - 1) % 50 >= 25)
    || (term == 3 && (var cents := (required - 1) % 100; 25 <= cents < 33 || 50 <= cents < 67 || cents >= 75))
  }

  lemma TwoYearTotals(k: nat, cents: nat)
    requires cents < 50 && 50 * k + cents >= 100
    ensures LeastLegacyTotal(50 * k + cents + 1, 2) == 100 * k + 100
    ensures LeastAavFirstTotal(50 * k + cents + 1, 2) == 100 * k + (if cents < 25 then 50 else 100)
  {
    assert (2 * (50 * k + cents + 1) - 1) * 2 + 1 == 2 * (100 * k + 2 * cents + 1) + 1;
    var quarters := if cents < 25 then 2 * k + 1 else 2 * k + 2;
    assert (50 * k + cents + 1 + 24) / 25 == quarters;
  }

  lemma ThreeYearTotals(k: nat, cents: nat)
    requires cents < 100 && 100 * k + cents >= 100
    ensures LeastLegacyTotal(100 * k + cents + 1, 3) == 300 * k + (3 * cents + 101) / 100 * 100
    ensures LeastAavFirstTotal(100 * k + cents + 1, 3) == 300 * k + (cents + 25) / 25 * 75
  {
    assert ((2 * (100 * k + cents + 1) - 1) * 3 + 1) / 2 == 300 * k + 3 * cents + 2;
    assert (300 * k + 3 * cents + 2 + 99) / 100 == 3 * k + (3 * cents + 101) / 100;
    assert (100 * k + cents + 1 + 24) / 25 == 4 * k + (cents + 25) / 25;
  }

  lemma TwoYearsAgree(required: int)
    requires required > 100
    ensures LeastLegacyTotal(required, 2) <= LeastAavFirstTotal(required, 2) <==> (required - 1) % 50 >= 25
  {
    hide LeastLegacyTotal, LeastAavFirstTotal;
    var k, cents := (required - 1) / 50, (required - 1) % 50;
    assert required == 50 * k + cents + 1;
    TwoYearTotals(k, cents);
  }

  lemma ThreeYearGrids(cents: nat)
    requires cents < 100
    ensures (3 * cents + 101) / 100 * 100 <= (cents + 25) / 25 * 75 <==>
            25 <= cents < 33 || 50 <= cents < 67 || cents >= 75
  {
  }

  lemma ThreeYearsAgree(required: int)
    requires required > 100
    ensures LeastLegacyTotal(required, 3) <= LeastAavFirstTotal(required, 3) <==>
            var cents := (required - 1) % 100; 25 <= cents < 33 || 50 <= cents < 67 || cents >= 75
  {
    hide LeastLegacyTotal, LeastAavFirstTotal;
    var k, cents := (required - 1) / 100, (required - 1) % 100;
    assert required == 100 * k + cents + 1;
    ThreeYearTotals(k, cents);
    ThreeYearGrids(cents);
  }

  lemma GridsAgreeExactly(required: int, term: int)
    requires IsTerm(term) && required >= 1
    ensures LeastLegacyTotal(required, term) <= LeastAavFirstTotal(required, term) <==> GridsAgree(required, term)
  {
    if term == 1 {
      assert ((2 * required - 1) * 1 + 1) / 2 == required;
    } else if required <= 100 {
      assert LeastLegacyTotal(required, term) == 100 * term == LeastAavFirstTotal(required, term);
    } else {
      hide LeastLegacyTotal, LeastAavFirstTotal;
      if term == 2 { TwoYearsAgree(required); } else { ThreeYearsAgree(required); }
    }
  }

  /**
   * "Smallest valid" holds of the legacy grid only. Over everything a team may submit, the
   * returned total is the least for the requests on which the grids agree, and for no others.
   */
  lemma SmallestAmongSubmittable(required: int, term: int)
    requires IsTerm(term) && required >= 1
    requires LeastLegacyTotal(required, term) <= MAX_SAFE_INTEGER
    ensures
      (forall o: Offer :: Submittable(o) && o.termYears == term && o.aavCents >= required ==>
                            LeastLegacyTotal(required, term) <= o.totalValueCents)
      <==>
      GridsAgree(required, term)
  {
    var legacy, modern := LeastLegacyTotal(required, term), LeastAavFirstTotal(required, term);
    LeastAavFirstTotalReaches(required, term);
    GridsAgreeExactly(required, term);
    if legacy <= modern {
      forall o: Offer | Submittable(o) && o.termYears == term && o.aavCents >= required
        ensures legacy <= o.totalValueCents
      {
        if OnLegacyGrid(o.totalValueCents, term) {
          LeastLegacyTotalIsLeast(required, term, o.totalValueCents);
        } else {
          LeastAavFirstTotalIsLeast(required, term, o.totalValueCents);
        }
      }
    } else {
      var o := Offer(modern, term, RoundedAav(modern, term));
      assert Submittable(o) && o.termYears == term && o.aavCents >= required;
    }
  }

  /** A request whose answer is beaten: 1.25 a year for two years costs 2.50, not 3.00. */
  lemma SmallestIsNotAlwaysSmallest()
    ensures LeastLegacyTotal(125, 2) == 300
    ensures Submittable(Offer(250, 2, 125))
  {
  }

  // ---------- one offer through every policy ----------

  /** Whatever creation, join or edit accepts is submittable at resolution with the same AAV. */
  lemma AcceptedOfferIsSubmittable(aav: int, term: int, joining: bool)
    ensures ValidateBidOffer(aav, term, joining).Ok? ==>
              Submittable(ValidateBidOffer(aav, term, joining).value)
    ensures ValidateOpeningBid(aav, term).Ok? ==>
              Submittable(ValidateOpeningBid(aav, term).value)
    ensures ValidateOpeningBid(aav, term) == ValidateBidOffer(aav, term, false)
  {
  }

  lemma ProductGrid(aav: nat, term: int)
    requires IsTerm(term) && aav % 25 == 0
    ensures aav * term % term == 0 && aav * term / term == aav
    ensures RoundedAav(aav * term, term) == aav
  {
  }

  /**
   * The resolution minimum: openings and joins always meet it. An edit is held to a
   * hundred cents a year only, so it meets the minimum of its kind of bid exactly
   * when it would have been accepted as a join or the bid started the auction.
   */
  lemma ResolutionMinimumAfterEachPath(aav: int, term: int, isStartingBid: bool)
    ensures ValidateOpeningBid(aav, term).Ok? ==>
              aav * term >= ResolutionMinimum(term, true)
    ensures ValidateBidOffer(aav, term, true).Ok? ==>
              aav * term >= ResolutionMinimum(term, isStartingBid)
    ensures ValidateBidOffer(aav, term, false).Ok? ==>
              (aav * term >= ResolutionMinimum(term, isStartingBid)
               <==> isStartingBid || ValidateBidOffer(aav, term, true).Ok?)
  {
  }

  /** An edit to 1.00 for one year is accepted and then fails the resolution minimum. */
  lemma EditBelowResolutionMinimum()
    ensures ValidateBidOffer(100, 1, false).Ok?
    ensures 100 < ResolutionMinimum(1, false)
  {
  }
}
