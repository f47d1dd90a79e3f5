/** Two whole reports that are not what they seem: one ranks points against lira, the other ranks a
    waiver first for a record that also charges a fee of that kind. Both pass the compatibility gate.
    The exact conditions under which a ranking mixes units, or shows a waiver for a record with a
    price, are stated for every selection elsewhere; here is one input for each, taken through the
    gate, the choice of values and the ranking. */
module ConcreteReports {
  import opened Wrappers
  import opened Contracts
  import opened Signatures
  import opened Ranking
  import opened Ordering
  import opened Digits
  import opened Comparison
  import opened Report
  import opened ReportTheorems
  import Gate

  // ----- plain records

  /** Cards in lira for everyone, with nothing else known of their context. */
  function PlainContext(): Context {
    Context(Some("TRY"), ["all"], UnknownChannel, None, None, None)
  }

  function Plain(id: string, fees: seq<Fee>, rewards: seq<Reward>, evidence: seq<Evidence>): Campaign {
    Campaign(id, Validated, Card, PlainContext(), DateTime(0, 0), None,
             [], [], fees, rewards, evidence)
  }

  function PointsReward(money: Option<Money>): Reward {
    Reward(Points, CampaignTotal, Some("program"), money, None, Some(500.0), None, None, None, Stated)
  }

  function Earners(): seq<Campaign> {
    [ Plain("a", [], [PointsReward(None)], [Evidence("e", "/data/rewards/0")]),
      Plain("b", [], [PointsReward(Some(Money(100.0, "100", "TRY")))], [Evidence("e", "/data/rewards/0")]) ]
  }

  function FeeOf(money: Option<Money>, waived: bool): Fee {
    Fee(money, None, AnnualFee, PerYear, waived, Stated)
  }

  function Payers(): seq<Campaign> {
    [ Plain("a", [FeeOf(None, true), FeeOf(Some(Money(40.0, "40", "USD")), false)], [], [Evidence("e", "/data/fees/0")]),
      Plain("b", [FeeOf(Some(Money(90.0, "90", "TRY")), false)], [], [Evidence("e", "/data/fees/0")]) ]
  }

  lemma FirstIsProven(r: Campaign, d: Dimension)
    requires exists e :: e in r.evidence && e.pointer == "/data" + Tail(d) + "/0"
    ensures EvidenceIds(r, Tail(d) + "/" + Numeral(0)) != []
  {
    var e :| e in r.evidence && e.pointer == "/data" + Tail(d) + "/0";
    assert Numeral(0) == "0";
    assert "/data" + (Tail(d) + "/" + Numeral(0)) == "/data" + Tail(d) + "/0";
    assert Supports(e, Tail(d) + "/" + Numeral(0));
    SupportingNonempty(r.evidence, Tail(d) + "/" + Numeral(0));
  }

  /** When one signature is common and every record meets it with its first offer alone, that first
      offer is what is chosen. */
  lemma FirstOffersChosen(records: seq<Campaign>, d: Dimension, s: Signature)
    requires records != [] && d != Eligibility && d != TermDimension
    requires FirstIssue(records, d).None?
    requires Common(AllOffers(records, d)) == {s}
    requires forall r :: r in records ==>
               && Entries(r, d) != [] && OffersOf(r, d) != []
               && MatchIndices(OffersOf(r, d), s) == [0]
               && EvidenceIds(r, Tail(d) + "/" + Numeral(0)) != []
    ensures Select(records, d).Success?
    ensures |Select(records, d).value.chosen| == |records|
    ensures forall i :: 0 <= i < |records| ==> Select(records, d).value.chosen[i].offer == OffersOf(records[i], d)[0]
  {
    assert Without(records, d) == {};
    var common := Common(AllOffers(records, d));
    assert TheOne(common) == s;
    assert forall i :: 0 <= i < |records| ==> records[i] in records;
    assert MeetsOnce(records, d, s);
    var chosen := Choices(records, d, s);
    assert forall i :: 0 <= i < |records| ==> chosen[i].evidence != [];
    assert Unproven(records, chosen) == {};
  }

  lemma LoneOffer(r: Campaign, d: Dimension, o: Offer)
    requires Entries(r, d) == [Success(o)] && !o.waived
    ensures OffersOf(r, d) == [o] && FirstFailure(Entries(r, d)).None?
    ensures MatchIndices(OffersOf(r, d), o.signature) == [0]
  {
    var offers := OffersOf(r, d);
    assert Entries(r, d)[1..] == [];
    assert Offers(Entries(r, d)) == [o] + Offers(Entries(r, d)[1..]);
    assert offers[..0] == [] && Meets(offers[0], o.signature);
    assert MatchIndices(offers, o.signature) == MatchIndices(offers[..0], o.signature) + [0];
  }

  lemma NoIssueInTwo(records: seq<Campaign>, d: Dimension)
    requires |records| == 2
    requires FirstFailure(Entries(records[0], d)).None? && FirstFailure(Entries(records[1], d)).None?
    ensures FirstIssue(records, d).None?
  {
    assert FirstIssue(records[1..][1..], d).None?;
    assert records[1..][0] == records[1];
  }

  lemma OneCommonOffer(all: seq<seq<Offer>>, a: Offer, b: Offer)
    requires all == [[a], [b]] && AllProper(all)
    requires !a.waived && !b.waived && a.signature == b.signature
    ensures Common(all) == {a.signature}
  {
    assert a in all[0] && b in all[1];
    assert Prices(all[0], a.signature) && Prices(all[1], a.signature);
    forall s
      ensures s in Common(all) <==> s == a.signature
    {
      CommonIsComplete(all, s);
      assert !Waives(all[0], s);
      if s == a.signature {
        assert forall i :: 0 <= i < |all| ==> all[i] == all[0] || all[i] == all[1];
        assert IsCommon(all, s);
      }
    }
  }

  lemma PointsEntry(id: string, money: Option<Money>, evidence: seq<Evidence>) returns (o: Offer)
    ensures Entries(Plain(id, [], [PointsReward(money)], evidence), RewardDimension) == [Success(o)]
    ensures !o.waived && o.signature == RewardSig(Points, CampaignTotal, RewardPoints("program"), None, None, None)
    ensures o.value == Some(if money.Some? then money.value.amount else 500.0)
    ensures o.unit == Some(if money.Some? then CurrencyUnit(money.value.currency) else PointsUnit)
  {
    o := RewardEntry(PointsReward(money)).value;
  }

  lemma FeeEntries(id: string, fees: seq<Fee>, evidence: seq<Evidence>)
    ensures |Entries(Plain(id, fees, [], evidence), FeeDimension)| == |fees|
    ensures forall i :: 0 <= i < |fees| ==> Entries(Plain(id, fees, [], evidence), FeeDimension)[i] == FeeEntry(fees[i])
  {
  }

  lemma EarnersAreSelected()
    ensures Select(Earners(), RewardDimension).Success?
    ensures var chosen := Select(Earners(), RewardDimension).value.chosen;
            && |chosen| == 2 && !chosen[0].offer.waived && !chosen[1].offer.waived
            && chosen[0].offer.unit == Some(PointsUnit) && chosen[0].offer.value == Some(500.0)
            && chosen[1].offer.unit == Some(CurrencyUnit("TRY")) && chosen[1].offer.value == Some(100.0)
  {
    var a := PointsEntry("a", None, Earners()[0].evidence);
    var b := PointsEntry("b", Some(Money(100.0, "100", "TRY")), Earners()[1].evidence);
    EarnersAreServed(a, b);
    EarnersAreProven();
    FirstOffersChosen(Earners(), RewardDimension, a.signature);
  }

  lemma EarnersAreProven()
    ensures forall r :: r in Earners() ==> EvidenceIds(r, Tail(RewardDimension) + "/" + Numeral(0)) != []
  {
    forall r | r in Earners()
      ensures EvidenceIds(r, Tail(RewardDimension) + "/" + Numeral(0)) != []
    {
      assert r.evidence[0].pointer == "/data" + Tail(RewardDimension) + "/0";
      FirstIsProven(r, RewardDimension);
    }
  }

  lemma EarnersAreServed(a: Offer, b: Offer)
    requires Entries(Earners()[0], RewardDimension) == [Success(a)]
    requires Entries(Earners()[1], RewardDimension) == [Success(b)]
    requires !a.waived && !b.waived && a.signature == b.signature
    ensures FirstIssue(Earners(), RewardDimension).None?
    ensures Common(AllOffers(Earners(), RewardDimension)) == {a.signature}
    ensures OffersOf(Earners()[0], RewardDimension) == [a] && OffersOf(Earners()[1], RewardDimension) == [b]
    ensures forall r :: r in Earners() ==> MatchIndices(OffersOf(r, RewardDimension), a.signature) == [0]
  {
    LoneOffer(Earners()[0], RewardDimension, a);
    LoneOffer(Earners()[1], RewardDimension, b);
    NoIssueInTwo(Earners(), RewardDimension);
    var all := AllOffers(Earners(), RewardDimension);
    AllOffersProper(Earners(), RewardDimension);
    assert all == [[a], [b]];
    OneCommonOffer(all, a, b);
  }

  /** Matching a waiver before a price that does not match. */
  lemma WaiverBeforePrice(r: Campaign, d: Dimension, w: Offer, u: Offer, s: Signature)
    requires Entries(r, d) == [Success(w), Success(u)]
    requires Meets(w, s) && !Meets(u, s)
    ensures OffersOf(r, d) == [w, u] && FirstFailure(Entries(r, d)).None?
    ensures MatchIndices(OffersOf(r, d), s) == [0]
  {
    var entries := Entries(r, d);
    assert entries[1..] == [Success(u)] && entries[1..][1..] == [];
    assert Offers(entries) == [w] + Offers(entries[1..]);
    assert Offers(entries[1..]) == [u] + Offers(entries[1..][1..]);
    assert FirstFailure(entries[1..]) == FirstFailure(entries[1..][1..]);
    var offers := OffersOf(r, d);
    assert offers[..1] == [w] && offers[..1][..0] == [];
    assert MatchIndices(offers[..1], s) == MatchIndices(offers[..1][..0], s) + [0];
    assert MatchIndices(offers, s) == MatchIndices(offers[..1], s) + [];
  }

  lemma PayersAreSelected()
    ensures Select(Payers(), FeeDimension).Success?
    ensures var chosen := Select(Payers(), FeeDimension).value.chosen;
            && |chosen| == 2
            && chosen[0].offer.waived && chosen[0].offer.value == None && chosen[0].offer.unit == None
            && !chosen[1].offer.waived
            && chosen[1].offer.value == Some(90.0) && chosen[1].offer.unit == Some(CurrencyUnit("TRY"))
  {
    var w, u, t := PayerOffers();
    PayersAreServed(w, u, t);
    PayersAreProven();
    FirstOffersChosen(Payers(), FeeDimension, t.signature);
  }

  lemma HiddenPrice()
    ensures exists f :: f in Payers()[0].fees && !f.waived && f.money == Some(Money(40.0, "40", "USD"))
                     && f.kind == AnnualFee && f.basis == PerYear
  {
    assert Payers()[0].fees[1] in Payers()[0].fees;
  }

  lemma PayersAreProven()
    ensures forall r :: r in Payers() ==> EvidenceIds(r, Tail(FeeDimension) + "/" + Numeral(0)) != []
  {
    forall r | r in Payers()
      ensures EvidenceIds(r, Tail(FeeDimension) + "/" + Numeral(0)) != []
    {
      assert r.evidence[0].pointer == "/data" + Tail(FeeDimension) + "/0";
      FirstIsProven(r, FeeDimension);
    }
  }

  lemma PayersAreServed(w: Offer, u: Offer, t: Offer)
    requires Entries(Payers()[0], FeeDimension) == [Success(w), Success(u)]
    requires Entries(Payers()[1], FeeDimension) == [Success(t)]
    requires w.waived && !u.waived && !t.waived
    requires SamePair(w.signature, t.signature) && SamePair(u.signature, t.signature)
    requires u.signature != t.signature
    ensures FirstIssue(Payers(), FeeDimension).None?
    ensures Common(AllOffers(Payers(), FeeDimension)) == {t.signature}
    ensures OffersOf(Payers()[0], FeeDimension) == [w, u] && OffersOf(Payers()[1], FeeDimension) == [t]
    ensures forall r :: r in Payers() ==> MatchIndices(OffersOf(r, FeeDimension), t.signature) == [0]
  {
    WaiverBeforePrice(Payers()[0], FeeDimension, w, u, t.signature);
    LoneOffer(Payers()[1], FeeDimension, t);
    NoIssueInTwo(Payers(), FeeDimension);
    var all := AllOffers(Payers(), FeeDimension);
    AllOffersProper(Payers(), FeeDimension);
    assert all == [[w, u], [t]];
    OneCommonFee(all, w, u, t);
  }

  lemma PayerOffers() returns (w: Offer, u: Offer, t: Offer)
    ensures Entries(Payers()[0], FeeDimension) == [Success(w), Success(u)]
    ensures Entries(Payers()[1], FeeDimension) == [Success(t)]
    ensures w.waived && !u.waived && !t.waived
    ensures w.value == None && w.unit == None && t.value == Some(90.0) && t.unit == Some(CurrencyUnit("TRY"))
    ensures SamePair(w.signature, t.signature) && SamePair(u.signature, t.signature)
    ensures u.signature != t.signature
  {
    var fw, fu, ft := FeeOf(None, true), FeeOf(Some(Money(40.0, "40", "USD")), false), FeeOf(Some(Money(90.0, "90", "TRY")), false);
    w, u, t := FeeEntry(fw).value, FeeEntry(fu).value, FeeEntry(ft).value;
    assert "USD"[0] != "TRY"[0];
    FeeEntries("a", [fw, fu], [Evidence("e", "/data/fees/0")]);
    FeeEntries("b", [ft], [Evidence("e", "/data/fees/0")]);
  }

  lemma OneCommonFee(all: seq<seq<Offer>>, w: Offer, u: Offer, t: Offer)
    requires all == [[w, u], [t]] && AllProper(all)
    requires w.waived && !u.waived && !t.waived
    requires SamePair(w.signature, t.signature) && SamePair(u.signature, t.signature)
    requires u.signature != t.signature
    ensures Common(all) == {t.signature}
  {
    assert w in all[0] && u in all[0] && t in all[1];
    assert Waives(all[0], t.signature) && Prices(all[1], t.signature);
    forall s
      ensures s in Common(all) <==> s == t.signature
    {
      CommonIsComplete(all, s);
      if IsCommon(all, s) {
        assert !Waives(all[1], s);
        assert Prices(all[1], s);
      }
      if s == t.signature {
        assert forall i :: 0 <= i < |all| ==> all[i] == all[0] || all[i] == all[1];
        assert IsCommon(all, s);
      }
    }
  }

  // ----- through the gate

  predicate IsPlain(r: Campaign) {
    r.status == Validated && r.family == Card && r.context == PlainContext()
    && r.observedAt == DateTime(0, 0) && r.validity == None
  }

  lemma PlainJudged(records: seq<Campaign>, c: nat)
    requires records != [] && forall r :: r in records ==> IsPlain(r)
    requires c < |Gate.CHECKS|
    ensures !Gate.Stops(Gate.Judge(records, OnDay(0), Gate.CHECKS[c]))
  {
    assert records[0] in records;
    assert forall r, axis :: r in records ==> Gate.Value(r, axis) == Gate.Value(records[0], axis);
  }

  lemma PlainPass(records: seq<Campaign>)
    requires records != [] && forall r :: r in records ==> IsPlain(r)
    ensures Gate.Passes(records, OnDay(0))
  {
    forall c | 0 <= c < |Gate.CHECKS|
      ensures !Gate.Stops(Gate.Judge(records, OnDay(0), Gate.CHECKS[c]))
    {
      PlainJudged(records, c);
    }
    Gate.PassesFrom(records, OnDay(0), 0);
  }

  // ----- a report on two records

  lemma AlreadyOrdered(records: seq<Campaign>)
    requires |records| == 2 && records[0].id == "a" && records[1].id == "b"
    ensures OrderedRecords(records) == records && |Ids(records)| == 2
  {
    assert StrLe("a", "b");
    SortIsSorted(records, Id);
    SortedUnique(records, OrderedRecords(records), Id);
    assert Ids(records) == {"a", "b"} by {
      assert records[0] in records && records[1] in records;
    }
  }

  lemma OneDimension(d: Dimension)
    ensures OrderedDimensions([d]) == [d]
  {
    DimensionsExact([d]);
    var dims := OrderedDimensions([d]);
    assert d in dims;
    assert dims[0] in dims && dims[|dims| - 1] in dims;
  }

  lemma PairReport(records: seq<Campaign>, d: Dimension, asOf: AsOf)
    requires |records| == 2 && records[0].id == "a" && records[1].id == "b"
    requires Gate.Passes(records, asOf)
    ensures Compare(records, [d], asOf).Success?
    ensures Compare(records, [d], asOf).value.items == DimensionOutcomes(records, d)
  {
    AlreadyOrdered(records);
    OneDimension(d);
    assert Items(records, [], None) + Block(records, d, None) == DimensionOutcomes(records, d);
    assert [d][..0] == [];
  }

  /** An accepted entry with its rank and figure. */
  predicate Shows(o: Outcome, id: string, rank: nat, value: Option<real>, unit: Option<Unit>) {
    Accepted(o) && o.campaign == id && o.rank == Some(rank) && o.value == value && o.unit == unit
  }

  lemma TwoRanks(records: seq<Campaign>, d: Dimension, sel: Selection)
    requires |records| == 2 && |sel.chosen| == 2 && Rankable(sel.chosen)
    requires Better(Keys(sel.chosen)[0], Keys(sel.chosen)[1], sel.higherIsBetter)
    ensures RankAll(records, d, sel)[0].rank == Some(1) && RankAll(records, d, sel)[1].rank == Some(2)
  {
    var ks := Keys(sel.chosen);
    RankAllIsDense(records, d, sel, 0, 1);
    RankAllIsDense(records, d, sel, 1, 0);
    assert ks[0] in ks && ks[1] in ks;
    assert BetterThan(ks[0], ks, sel.higherIsBetter) == {};
    assert BetterThan(ks[1], ks, sel.higherIsBetter) == {ks[0]};
  }

  lemma TwoShown(records: seq<Campaign>, d: Dimension, sel: Selection)
    requires |records| == 2 && d != Eligibility && Select(records, d) == Success(sel)
    requires |sel.chosen| == 2 && Rankable(sel.chosen)
    requires Better(Keys(sel.chosen)[0], Keys(sel.chosen)[1], sel.higherIsBetter)
    ensures |DimensionOutcomes(records, d)| == 2
    ensures Shows(DimensionOutcomes(records, d)[0], records[0].id, 1, sel.chosen[0].offer.value, sel.chosen[0].offer.unit)
    ensures Shows(DimensionOutcomes(records, d)[1], records[1].id, 2, sel.chosen[1].offer.value, sel.chosen[1].offer.unit)
  {
    OutcomesAreRanked(records, d, sel);
    TwoRanks(records, d, sel);
    SelectionHasEvidence(records, d, sel);
  }

  lemma EarnersBetter(chosen: seq<Chosen>)
    requires |chosen| == 2 && !chosen[0].offer.waived && !chosen[1].offer.waived
    requires chosen[0].offer.value == Some(500.0) && chosen[1].offer.value == Some(100.0)
    ensures Rankable(chosen) && Better(Keys(chosen)[0], Keys(chosen)[1], true)
  {
  }

  lemma EarnersAreShown(records: seq<Campaign>, sel: Selection)
    requires |records| == 2 && records[0].id == "a" && records[1].id == "b"
    requires Select(records, RewardDimension) == Success(sel)
    requires |sel.chosen| == 2 && !sel.chosen[0].offer.waived && !sel.chosen[1].offer.waived
    requires sel.chosen[0].offer.unit == Some(PointsUnit) && sel.chosen[0].offer.value == Some(500.0)
    requires sel.chosen[1].offer.unit == Some(CurrencyUnit("TRY")) && sel.chosen[1].offer.value == Some(100.0)
    ensures var items := DimensionOutcomes(records, RewardDimension);
            && |items| == 2
            && Shows(items[0], "a", 1, Some(500.0), Some(PointsUnit))
            && Shows(items[1], "b", 2, Some(100.0), Some(CurrencyUnit("TRY")))
  {
    RewardsRankHigh(records, sel);
    EarnersBetter(sel.chosen);
    TwoShown(records, RewardDimension, sel);
  }

  lemma RewardsRankHigh(records: seq<Campaign>, sel: Selection)
    requires records != [] && Select(records, RewardDimension) == Success(sel)
    ensures sel.higherIsBetter
  {
  }

  lemma EarnersReported()
    ensures Compare(Earners(), [RewardDimension], OnDay(0)).Success?
    ensures Compare(Earners(), [RewardDimension], OnDay(0)).value.items == DimensionOutcomes(Earners(), RewardDimension)
  {
    PlainPass(Earners());
    PairReport(Earners(), RewardDimension, OnDay(0));
  }

  /** A points reward that also names an amount is ranked by that amount: a report ranks 500 points
      first, ahead of 100 lira. */
  lemma PointsAgainstMoney()
    ensures Compare(Earners(), [RewardDimension], OnDay(0)).Success?
    ensures var items := Compare(Earners(), [RewardDimension], OnDay(0)).value.items;
            && |items| == 2
            && Shows(items[0], "a", 1, Some(500.0), Some(PointsUnit))
            && Shows(items[1], "b", 2, Some(100.0), Some(CurrencyUnit("TRY")))
  {
    EarnersReported();
    EarnersAreSelected();
    EarnersAreShown(Earners(), Select(Earners(), RewardDimension).value);
  }

  lemma PayersBetter(chosen: seq<Chosen>)
    requires |chosen| == 2 && chosen[0].offer.waived && !chosen[1].offer.waived
    requires chosen[1].offer.value.Some?
    ensures Rankable(chosen) && Better(Keys(chosen)[0], Keys(chosen)[1], false)
  {
  }

  lemma PayersAreShown(records: seq<Campaign>, sel: Selection)
    requires |records| == 2 && records[0].id == "a" && records[1].id == "b"
    requires Select(records, FeeDimension) == Success(sel)
    requires |sel.chosen| == 2 && sel.chosen[0].offer.waived && !sel.chosen[1].offer.waived
    requires sel.chosen[0].offer.value == None && sel.chosen[0].offer.unit == None
    requires sel.chosen[1].offer.value == Some(90.0) && sel.chosen[1].offer.unit == Some(CurrencyUnit("TRY"))
    ensures var items := DimensionOutcomes(records, FeeDimension);
            && |items| == 2
            && Shows(items[0], "a", 1, None, None)
            && Shows(items[1], "b", 2, Some(90.0), Some(CurrencyUnit("TRY")))
  {
    FeesRankLow(records, sel);
    PayersBetter(sel.chosen);
    TwoShown(records, FeeDimension, sel);
  }

  lemma FeesRankLow(records: seq<Campaign>, sel: Selection)
    requires records != [] && Select(records, FeeDimension) == Success(sel)
    ensures !sel.higherIsBetter
  {
  }

  lemma PayersReported()
    ensures Compare(Payers(), [FeeDimension], OnDay(0)).Success?
    ensures Compare(Payers(), [FeeDimension], OnDay(0)).value.items == DimensionOutcomes(Payers(), FeeDimension)
  {
    PlainPass(Payers());
    PairReport(Payers(), FeeDimension, OnDay(0));
  }

  /** A waiver can stand for a record that also prices the same kind and basis in another currency: a
      report ranks the record first, without its 40 dollars, ahead of 90 lira. */
  lemma WaiverMayHideAPrice()
    ensures Compare(Payers(), [FeeDimension], OnDay(0)).Success?
    ensures var items := Compare(Payers(), [FeeDimension], OnDay(0)).value.items;
            && |items| == 2
            && Shows(items[0], "a", 1, None, None)
            && Shows(items[1], "b", 2, Some(90.0), Some(CurrencyUnit("TRY")))
    ensures exists f :: f in Payers()[0].fees && !f.waived && f.money == Some(Money(40.0, "40", "USD"))
                     && f.kind == AnnualFee && f.basis == PerYear
  {
    PayersReported();
    PayersAreSelected();
    PayersAreShown(Payers(), Select(Payers(), FeeDimension).value);
    HiddenPrice();
  }
}
