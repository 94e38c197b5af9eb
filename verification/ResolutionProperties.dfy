/** What resolving an auction guarantees, whatever bids and history it is given. */
module ResolutionProperties {
  import opened Collections
  import opened Offers
  import opened Pricing
  import opened Resolution

  // ---------- counting occurrences ----------

  lemma Elsewhere<T>(s: seq<T>, i: nat, j: nat)
    requires i < |s| && j < |s| && i != j
    ensures s[j] in multiset(s[..i] + s[i + 1..])
  {
  }

  lemma {:induction false} OccursTwice<T>(s: seq<T>, i: nat)
    requires i < |s|
    ensures multiset(s)[s[i]] > 1 <==> exists j :: 0 <= j < |s| && j != i && s[j] == s[i]
  {
    var rest := s[..i] + s[i + 1..];
    assert s == s[..i] + [s[i]] + s[i + 1..];
    assert multiset(s) == multiset(rest) + multiset{s[i]};
    if multiset(s)[s[i]] > 1 {
      assert s[i] in rest;
      var k :| 0 <= k < |rest| && rest[k] == s[i];
      assert s[if k < i then k else k + 1] == s[i];
    } else if j :| 0 <= j < |s| && j != i && s[j] == s[i] {
      Elsewhere(s, i, j);
      assert false;
    }
  }

  lemma DuplicateMeansShared(valid: seq<Bid>, i: nat)
    requires i < |valid|
    ensures IsDuplicate(valid[i], IdCounts(valid), TeamCounts(valid))
            <==> exists j :: 0 <= j < |valid| && j != i
                             && (valid[j].id == valid[i].id || valid[j].teamId == valid[i].teamId)
  {
    CollectAll(valid, IdOf());
    CollectAll(valid, TeamOf());
    OccursTwice(Collect(valid, IdOf()), i);
    OccursTwice(Collect(valid, TeamOf()), i);
    var ids, teams := Collect(valid, IdOf()), Collect(valid, TeamOf());
    forall j | 0 <= j < |valid| ensures ids[j] == valid[j].id && teams[j] == valid[j].teamId {
    }
  }

  /** Filtering takes occurrences away, whatever is counted. */
  lemma {:induction false} CountsShrink(valid: seq<Bid>, ids: multiset<Id>, teams: multiset<Id>, key: Bid -> Option<Id>)
    ensures multiset(Collect(Collect(valid, Unique(ids, teams)), key)) <= multiset(Collect(valid, key))
  {
    if valid != [] {
      var n := |valid| - 1;
      CountsShrink(valid[..n], ids, teams, key);
      var kept := Collect(valid[..n], Unique(ids, teams));
      if IsDuplicate(valid[n], ids, teams) {
        assert Collect(valid, Unique(ids, teams)) == kept;
      } else {
        assert Collect(valid, Unique(ids, teams)) == kept + [valid[n]];
        assert (kept + [valid[n]])[..|kept|] == kept;
      }
    }
  }

  ghost predicate DistinctIdsAndTeams(bids: seq<Bid>) {
    forall i, j :: 0 <= i < j < |bids| ==> bids[i].id != bids[j].id && bids[i].teamId != bids[j].teamId
  }

  lemma EligibleAreDistinct(auction: Auction, bids: seq<RawBid>)
    ensures DistinctIdsAndTeams(EligibleBids(auction, bids))
  {
    hide Collect;
    var valid := ValidBids(auction, bids);
    var eligible := EligibleBids(auction, bids);
    var ids, teams := IdCounts(valid), TeamCounts(valid);
    CountsShrink(valid, ids, teams, IdOf());
    CountsShrink(valid, ids, teams, TeamOf());
    forall i, j | 0 <= i < j < |eligible|
      ensures eligible[i].id != eligible[j].id && eligible[i].teamId != eligible[j].teamId
    {
      DuplicateMeansShared(eligible, j);
      CollectMember(valid, Unique(ids, teams), eligible[j]);
      assert !IsDuplicate(eligible[j], ids, teams);
    }
  }

  lemma {:induction false} DistinctUnderPermutation(s: seq<Bid>, t: seq<Bid>)
    requires multiset(s) == multiset(t) && DistinctIdsAndTeams(s)
    ensures DistinctIdsAndTeams(t)
  {
    CollectPermutation(s, t, IdOf());
    CollectPermutation(s, t, TeamOf());
    SameMembers(s, t);
    forall i, j | 0 <= i < j < |t| ensures t[i].id != t[j].id && t[i].teamId != t[j].teamId {
      assert t[i] in s;
      var k :| 0 <= k < |s| && s[k] == t[i];
      DuplicateMeansShared(s, k);
      DuplicateMeansShared(t, i);
    }
  }

  // ---------- the ranking ----------

  lemma RankingSorts(auction: Auction, bids: seq<RawBid>)
    ensures SortedBy(Ranking(auction, bids), RankLeq)
    ensures multiset(Ranking(auction, bids)) == multiset(EligibleBids(auction, bids))
  {
    hide InsertBy, SortBy, Collect;
    RankLeqIsTotal();
    SortBySorts(EligibleBids(auction, bids), RankLeq);
  }

  lemma SkippedLeqIsTotal()
    ensures TotalPreorder(SkippedLeq)
  {
  }

  lemma SkippedSorts(auction: Auction, bids: seq<RawBid>)
    ensures multiset(SortBy(SkippedBids(auction, bids), SkippedLeq)) == multiset(SkippedBids(auction, bids))
  {
    hide InsertBy, SortBy, Collect, SkippedBids;
    SkippedLeqIsTotal();
    SortBySorts(SkippedBids(auction, bids), SkippedLeq);
  }

  /** No id or team is ranked twice, and each bid strictly beats every bid ranked below it. */
  lemma RankingIsStrict(auction: Auction, bids: seq<RawBid>)
    ensures
      var ranking := Ranking(auction, bids);
      && multiset(ranking) == multiset(EligibleBids(auction, bids))
      && DistinctIdsAndTeams(ranking)
      && forall i, j :: 0 <= i < j < |ranking| ==> CompareOffers(ranking[i], ranking[j]) < 0
  {
    hide Ranking, EligibleBids;
    var ranking := Ranking(auction, bids);
    RankingSorts(auction, bids);
    EligibleAreDistinct(auction, bids);
    DistinctUnderPermutation(EligibleBids(auction, bids), ranking);
    forall i, j | 0 <= i < j < |ranking| ensures CompareOffers(ranking[i], ranking[j]) < 0 {
      assert RankLeq(ranking[i], ranking[j]);
    }
  }

  lemma RankedBidsPassedInspection(auction: Auction, bids: seq<RawBid>, b: Bid)
    requires b in Ranking(auction, bids)
    ensures Consistent(b)
    ensures exists raw :: raw in bids && InspectBid(raw, auction) == Ok(b)
  {
    hide Collect, SortBy, Ranking;
    var valid := ValidBids(auction, bids);
    RankingSorts(auction, bids);
    SameMembers(EligibleBids(auction, bids), Ranking(auction, bids));
    CollectMember(valid, Unique(IdCounts(valid), TeamCounts(valid)), b);
    CollectMember(bids, Passing(auction), b);
    var raw :| raw in bids && Passing(auction)(raw) == Some(b);
    assert InspectBid(raw, auction) == Ok(b);
  }

  // ---------- conservation ----------

  datatype Fate = Ranked(bid: Bid) | SetAside(entry: Skipped)

  /** What becomes of one bid row, given how often its id and team occur among the sound bids. */
  function FateOf(auction: Auction, ids: multiset<Id>, teams: multiset<Id>): RawBid -> Option<Fate> {
    (raw: RawBid) =>
      match InspectBid(raw, auction)
      case Err(entry) => Some(SetAside(entry))
      case Ok(b) =>
        if IsDuplicate(b, ids, teams) then Some(SetAside(Skipped(Some(b.id), BidDuplicate))) else Some(Ranked(b))
  }

  function AsRanked(): Bid -> Option<Fate> { (b: Bid) => Some(Ranked(b)) }

  function AsSetAside(): Skipped -> Option<Fate> { (s: Skipped) => Some(SetAside(s)) }

  function RankedFate(auction: Auction, ids: multiset<Id>, teams: multiset<Id>): RawBid -> Option<Fate> {
    (raw: RawBid) =>
      match InspectBid(raw, auction)
      case Err(_) => None
      case Ok(b) => if IsDuplicate(b, ids, teams) then None else Some(Ranked(b))
  }

  function RepeatedFate(auction: Auction, ids: multiset<Id>, teams: multiset<Id>): RawBid -> Option<Fate> {
    (raw: RawBid) =>
      match InspectBid(raw, auction)
      case Err(_) => None
      case Ok(b) => if IsDuplicate(b, ids, teams) then Some(SetAside(Skipped(Some(b.id), BidDuplicate))) else None
  }

  function SoundFate(auction: Auction, ids: multiset<Id>, teams: multiset<Id>): RawBid -> Option<Fate> {
    (raw: RawBid) => if InspectBid(raw, auction).Ok? then FateOf(auction, ids, teams)(raw) else None
  }

  function FailedFate(auction: Auction): RawBid -> Option<Fate> {
    (raw: RawBid) => match InspectBid(raw, auction) case Ok(_) => None case Err(entry) => Some(SetAside(entry))
  }

  /** Three passes over the bids as one. */
  lemma SoundThen<U>(auction: Auction, bids: seq<RawBid>, g: Bid -> Option<U>, h: U -> Option<Fate>,
                     all: RawBid -> Option<Fate>)
    requires forall raw :: all(raw) == match InspectBid(raw, auction)
                                       case Err(_) => None
                                       case Ok(b) => match g(b) case None => None case Some(u) => h(u)
    ensures Collect(Collect(ValidBids(auction, bids), g), h) == Collect(bids, all)
  {
    hide Collect, InspectBid;
    var then' := (raw: RawBid) => match InspectBid(raw, auction) case Err(_) => None case Ok(b) => g(b);
    CollectCompose(bids, Passing(auction), g, then');
    CollectCompose(bids, then', h, all);
  }

  lemma FatesSplit(auction: Auction, bids: seq<RawBid>, ids: multiset<Id>, teams: multiset<Id>)
    ensures
      var valid := ValidBids(auction, bids);
      multiset(Collect(bids, FateOf(auction, ids, teams)))
      == multiset(Collect(Collect(valid, Unique(ids, teams)), AsRanked()))
         + multiset(Collect(Collect(bids, Failing(auction)), AsSetAside()))
         + multiset(Collect(Collect(valid, Repeated(ids, teams)), AsSetAside()))
  {
    hide Collect, InspectBid, IsDuplicate;
    var ranked, repeated := RankedFate(auction, ids, teams), RepeatedFate(auction, ids, teams);
    CollectPartition(bids, SoundFate(auction, ids, teams), FailedFate(auction), FateOf(auction, ids, teams));
    CollectPartition(bids, ranked, repeated, SoundFate(auction, ids, teams));
    CollectCompose(bids, Failing(auction), AsSetAside(), FailedFate(auction));
    var valid := ValidBids(auction, bids);
    assert Collect(Collect(valid, Unique(ids, teams)), AsRanked()) == Collect(bids, ranked) by {
      SoundThen(auction, bids, Unique(ids, teams), AsRanked(), ranked);
    }
    assert Collect(Collect(valid, Repeated(ids, teams)), AsSetAside()) == Collect(bids, repeated) by {
      SoundThen(auction, bids, Repeated(ids, teams), AsSetAside(), repeated);
    }
  }

  /**
   * Conservation: the ranked bids and the skipped list together account for every
   * input bid exactly once, each with the fate its own row and the clashes give it.
   */
  lemma EveryBidIsRankedOrSkippedOnce(auction: Auction, bids: seq<RawBid>)
    ensures
      var valid := ValidBids(auction, bids);
      && multiset(Collect(bids, FateOf(auction, IdCounts(valid), TeamCounts(valid))))
         == multiset(Collect(Ranking(auction, bids), AsRanked()))
            + multiset(Collect(SortBy(SkippedBids(auction, bids), SkippedLeq), AsSetAside()))
      && |Ranking(auction, bids)| + |SortBy(SkippedBids(auction, bids), SkippedLeq)| == |bids|
  {
    hide Collect, SortBy, InsertBy, Ranking, ValidBids;
    var valid := ValidBids(auction, bids);
    var ids, teams := IdCounts(valid), TeamCounts(valid);
    var skipped := SkippedBids(auction, bids);
    FatesSplit(auction, bids, ids, teams);
    RankingSorts(auction, bids);
    SkippedSorts(auction, bids);
    CollectPermutation(EligibleBids(auction, bids), Ranking(auction, bids), AsRanked());
    CollectPermutation(skipped, SortBy(skipped, SkippedLeq), AsSetAside());
    CollectConcat(Collect(bids, Failing(auction)), Collect(valid, Repeated(ids, teams)), AsSetAside());
    CollectAll(bids, FateOf(auction, ids, teams));
    CollectAll(Ranking(auction, bids), AsRanked());
    CollectAll(SortBy(skipped, SkippedLeq), AsSetAside());
    assert |multiset(Collect(bids, FateOf(auction, ids, teams)))| == |bids|;
  }

  // ---------- order independence ----------

  lemma EligibleTies(auction: Auction, bids: seq<RawBid>)
    ensures TiesAreEqual(EligibleBids(auction, bids), RankLeq)
  {
    hide EligibleBids;
    var eligible := EligibleBids(auction, bids);
    EligibleAreDistinct(auction, bids);
    forall x, y | x in eligible && y in eligible && RankLeq(x, y) && RankLeq(y, x) ensures x == y {
      var i :| 0 <= i < |eligible| && eligible[i] == x;
      var j :| 0 <= j < |eligible| && eligible[j] == y;
      assert x.id == y.id;
    }
  }

  lemma StagesIgnoreOrder(auction: Auction, bids: seq<RawBid>, permuted: seq<RawBid>)
    requires multiset(bids) == multiset(permuted)
    ensures multiset(EligibleBids(auction, bids)) == multiset(EligibleBids(auction, permuted))
    ensures multiset(SkippedBids(auction, bids)) == multiset(SkippedBids(auction, permuted))
  {
    var valid, valid' := ValidBids(auction, bids), ValidBids(auction, permuted);
    CollectPermutation(bids, permuted, Passing(auction));
    CollectPermutation(bids, permuted, Failing(auction));
    CollectPermutation(valid, valid', IdOf());
    CollectPermutation(valid, valid', TeamOf());
    CollectPermutation(valid, valid', Unique(IdCounts(valid), TeamCounts(valid)));
    CollectPermutation(valid, valid', Repeated(IdCounts(valid), TeamCounts(valid)));
  }

  lemma SortedStagesIgnoreOrder(auction: Auction, bids: seq<RawBid>, permuted: seq<RawBid>)
    requires multiset(bids) == multiset(permuted)
    ensures Ranking(auction, bids) == Ranking(auction, permuted)
    ensures SortBy(SkippedBids(auction, bids), SkippedLeq) == SortBy(SkippedBids(auction, permuted), SkippedLeq)
  {
    hide Collect, SortBy, InsertBy, EligibleBids, SkippedBids;
    StagesIgnoreOrder(auction, bids, permuted);
    assert Ranking(auction, bids) == Ranking(auction, permuted) by {
      RankLeqIsTotal();
      EligibleTies(auction, bids);
      SortPermutation(EligibleBids(auction, bids), EligibleBids(auction, permuted), RankLeq);
    }
    SkippedLeqIsTotal();
    SortPermutation(SkippedBids(auction, bids), SkippedBids(auction, permuted), SkippedLeq);
  }

  /** Neither the order of the bids nor that of the history changes anything in the outcome. */
  lemma OutcomeIgnoresOrder(auction: Auction, bids: seq<RawBid>, permuted: seq<RawBid>,
                            history: seq<HistoryEvent>, permutedHistory: seq<HistoryEvent>)
    requires multiset(bids) == multiset(permuted)
    requires multiset(history) == multiset(permutedHistory)
    ensures Evaluate(auction, bids, history) == Evaluate(auction, permuted, permutedHistory)
  {
    hide Collect, SortBy, InsertBy, EligibleBids, SkippedBids, PriceOf;
    SortedStagesIgnoreOrder(auction, bids, permuted);
    var ranking := Ranking(auction, bids);
    if ranking != [] {
      var competitor := if |ranking| > 1 then Some(ranking[1]) else None;
      PriceIgnoresHistoryOrder(ranking[0], competitor, history, permutedHistory, auction.resolvesAtMs, NoFloor());
    }
  }

  // ---------- the award ----------

  /** Ranking is transitive, so beating the runner-up means beating everyone. */
  lemma BeatsRunnerUpBeatsAll(ranking: seq<Bid>, b: Bid, i: nat)
    requires forall i, j :: 0 <= i < j < |ranking| ==> CompareOffers(ranking[i], ranking[j]) < 0
    requires 1 <= i < |ranking| && CompareOffers(b, ranking[1]) < 0
    ensures CompareOffers(b, ranking[i]) < 0
  {
  }

  /**
   * The price is stable: charged to the winner in place of its bid, it still strictly
   * beats every other ranked bid, and its yearly value is no more than the bid's.
   */
  lemma AwardIsStable(auction: Auction, bids: seq<RawBid>, history: seq<HistoryEvent>)
    requires Evaluate(auction, bids, history).Won?
    ensures
      var o := Evaluate(auction, bids, history);
      var ranking := Ranking(auction, bids);
      var price := o.award.price;
      var charged := Candidate(o.award.winner, Offer(price.totalValueCents, price.termYears, price.aavCents));
      && o.ranked == Numbered(ranking) && ranking != []
      && o.award.winner == ranking[0]
      && o.award.competitor == (if |ranking| > 1 then Some(ranking[1]) else None)
      && o.award.finalAavCents == price.aavCents <= o.award.winner.aavCents
      && o.award.winner.firstSubmittedAtMs <= price.occurredAtMs <= auction.resolvesAtMs
      && forall i :: 1 <= i < |ranking| ==> CompareOffers(charged, ranking[i]) < 0
  {
    hide Ranking, PriceOf;
    var ranking := Ranking(auction, bids);
    RankingIsStrict(auction, bids);
    var competitor := if |ranking| > 1 then Some(ranking[1]) else None;
    var price := PriceOf(ranking[0], competitor, history, auction.resolvesAtMs, NoFloor()).value;
    PriceIsSound(ranking[0], competitor, history, auction.resolvesAtMs, NoFloor(), price);
    var charged := Candidate(ranking[0], Offer(price.totalValueCents, price.termYears, price.aavCents));
    forall i | 1 <= i < |ranking| ensures CompareOffers(charged, ranking[i]) < 0 {
      BeatsRunnerUpBeatsAll(ranking, charged, i);
    }
  }

  lemma SubmittableHasAav(o: Offer)
    requires Submittable(o)
    ensures CalculateAavCents(o.totalValueCents, o.termYears) == Ok(o.aavCents)
  {
  }

  lemma SettlingThrowsOnlyForLateWinners(auction: Auction, bids: seq<RawBid>, history: seq<HistoryEvent>)
    requires Ranking(auction, bids) != []
    ensures Settle(auction, bids, history).PricingThrew?
            <==> Ranking(auction, bids)[0].firstSubmittedAtMs > auction.resolvesAtMs
  {
    hide Ranking, PriceOf, SkippedBids, SortBy, CompareOffers, Consistent, Submittable, RoundedAav;
    var ranking := Ranking(auction, bids);
    RankingIsStrict(auction, bids);
    RankedBidsPassedInspection(auction, bids, ranking[0]);
    var competitor := if |ranking| > 1 then Some(ranking[1]) else None;
    PricingFailsOnlyForLateBids(ranking[0], competitor, history, auction.resolvesAtMs, NoFloor());
    var priced := PriceOf(ranking[0], competitor, history, auction.resolvesAtMs, NoFloor());
    if priced.Ok? {
      PriceIsSound(ranking[0], competitor, history, auction.resolvesAtMs, NoFloor(), priced.value);
      SubmittableHasAav(Offer(priced.value.totalValueCents, priced.value.termYears, priced.value.aavCents));
    }
  }

  /** Pricing throws exactly when a due auction's best bid was first submitted after the deadline. */
  lemma PricingThrowsOnlyForLateWinners(auction: Auction, bids: seq<RawBid>, history: seq<HistoryEvent>)
    ensures Evaluate(auction, bids, history).PricingThrew?
            <==> && IsCanonical(auction) && auction.isOpen && auction.nowMs >= auction.resolvesAtMs
                 && !PlayoffsDue(auction) && !auction.playerOwned
                 && Ranking(auction, bids) != []
                 && Ranking(auction, bids)[0].firstSubmittedAtMs > auction.resolvesAtMs
  {
    hide Ranking, PriceOf, SkippedBids, SortBy, CompareOffers;
    var ranking := Ranking(auction, bids);
    if ranking != [] {
      SettlingThrowsOnlyForLateWinners(auction, bids, history);
    }
  }
}
