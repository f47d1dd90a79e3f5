/** Who ranks ahead of whom, in the fields of the values shown. */
module RankedFields {
  import opened Wrappers
  import opened Contracts
  import opened Signatures
  import opened Digits
  import opened Comparison
  import opened ReportTheorems
  import opened ChosenValues
  import Ranking

  // ----- what an outcome reports of a selection

  predicate Reports(o: Outcome, r: Campaign, d: Dimension, c: Chosen) {
    && o.campaign == r.id && o.dimension == d && o.comparable && o.rank.Some?
    && o.value == c.offer.value && o.unit == c.offer.unit && o.evidence == c.evidence
  }

  lemma OutcomeReports(records: seq<Campaign>, d: Dimension, sel: Selection, i: nat)
    requires records != [] && d != Eligibility && Select(records, d) == Success(sel) && i < |records|
    ensures |sel.chosen| == |records| == |DimensionOutcomes(records, d)|
    ensures Reports(DimensionOutcomes(records, d)[i], records[i], d, sel.chosen[i])
    ensures DimensionOutcomes(records, d)[i].reason == if sel.higherIsBetter then RankedHigherIsBetter else RankedLowerIsBetter
  {
    OutcomesAreRanked(records, d, sel);
  }

  /** Of two outcomes the first ranks ahead, or they tie. */
  predicate Ahead(a: Outcome, b: Outcome) {
    a.rank.Some? && b.rank.Some? && a.rank.value < b.rank.value
  }

  predicate Tie(a: Outcome, b: Outcome) {
    a.rank.Some? && a.rank == b.rank
  }

  lemma KeysDecide(a: Chosen, b: Chosen, x: real, y: real)
    requires !a.offer.waived && !b.offer.waived && a.offer.value == Some(x) && b.offer.value == Some(y)
    ensures Ranking.Better(KeyOf(a), KeyOf(b), true) <==> x > y
    ensures Ranking.Better(KeyOf(a), KeyOf(b), false) <==> x < y
    ensures KeyOf(a) == KeyOf(b) <==> x == y
  {
  }

  lemma FiguresDecide(records: seq<Campaign>, d: Dimension, sel: Selection, i: nat, j: nat, x: real, y: real)
    requires records != [] && d != Eligibility && Select(records, d) == Success(sel)
    requires i < |records| && j < |records|
    requires |sel.chosen| == |records| && !sel.chosen[i].offer.waived && !sel.chosen[j].offer.waived
    requires sel.chosen[i].offer.value == Some(x) && sel.chosen[j].offer.value == Some(y)
    ensures |DimensionOutcomes(records, d)| == |records|
    ensures var out := DimensionOutcomes(records, d);
            && (Ahead(out[i], out[j]) <==> if sel.higherIsBetter then x > y else x < y)
            && (Tie(out[i], out[j]) <==> x == y)
  {
    RanksAreDense(records, d, sel, i, j);
    KeysDecide(sel.chosen[i], sel.chosen[j], x, y);
  }

  lemma EntryAt(r: Campaign, d: Dimension, k: nat)
    requires k < |Entries(r, d)|
    ensures d == RateDimension ==> k < |r.rates| && Entries(r, d)[k] == RateEntry(r.rates[k])
    ensures d == FeeDimension ==> k < |r.fees| && Entries(r, d)[k] == FeeEntry(r.fees[k])
    ensures d == RewardDimension ==> k < |r.rewards| && Entries(r, d)[k] == RewardEntry(r.rewards[k])
  {
  }

  /** No other entry of the record meets the signature. */
  predicate OnlyEntry(r: Campaign, d: Dimension, s: Signature, k: nat) {
    forall m :: 0 <= m < |Entries(r, d)| && EntryMeets(Entries(r, d)[m], s) ==> m == k
  }

  predicate EntryMeets(e: Entry, s: Signature) {
    e.Success? && Meets(e.value, s)
  }

  lemma EntryIsAlone(r: Campaign, d: Dimension, s: Signature)
    requires MeetsSignatureOnce(r, d, s) && FirstFailure(Entries(r, d)).None?
    ensures OnlyEntry(r, d, s, ChosenIndex(r, d, s))
  {
    ChosenIsEntry(r, d, s);
    forall m | 0 <= m < |Entries(r, d)| && EntryMeets(Entries(r, d)[m], s)
      ensures m == ChosenIndex(r, d, s)
    {
      OffersAreEntries(Entries(r, d));
      OnlyMatch(OffersOf(r, d), s, m, ChosenIndex(r, d, s));
    }
  }

  lemma ChoiceAt(records: seq<Campaign>, d: Dimension, sel: Selection, i: nat) returns (k: nat)
    requires records != [] && d != Eligibility && d != TermDimension && Select(records, d) == Success(sel)
    requires i < |records|
    ensures |Common(AllOffers(records, d))| == 1 && |sel.chosen| == |records|
    ensures k < |Entries(records[i], d)| && Entries(records[i], d)[k] == Success(sel.chosen[i].offer)
    ensures Meets(sel.chosen[i].offer, TheCommon(records, d))
    ensures sel.chosen[i].evidence == EvidenceIds(records[i], Tail(d) + "/" + Numeral(k))
    ensures sel.higherIsBetter == HigherIsBetter(d, TheCommon(records, d))
    ensures OnlyEntry(records[i], d, TheCommon(records, d), k)
  {
    var s := TheCommon(records, d);
    SelectedUnderCommon(records, d, sel);
    Direction(records, d, sel);
    NoIssues(records, d, i);
    EntryIsAlone(records[i], d, s);
    ChosenIsEntry(records[i], d, s);
    k := ChosenIndex(records[i], d, s);
    ChoiceEvidence(records[i], d, s);
  }

  lemma Direction(records: seq<Campaign>, d: Dimension, sel: Selection)
    requires records != [] && d != Eligibility && d != TermDimension && Select(records, d) == Success(sel)
    ensures |Common(AllOffers(records, d))| == 1
    ensures sel.higherIsBetter == HigherIsBetter(d, TheCommon(records, d))
  {
    SelectedUnderCommon(records, d, sel);
    var s := TheCommon(records, d);
    assert SelectCommon(records, d) == Proven(records, d, HigherIsBetter(d, s), Choices(records, d, s));
    ProvenKeeps(records, d, HigherIsBetter(d, s), Choices(records, d, s), sel);
  }

  lemma ProvenKeeps(records: seq<Campaign>, d: Dimension, higher: bool, chosen: seq<Chosen>, sel: Selection)
    requires |records| == |chosen| && Proven(records, d, higher, chosen) == Success(sel)
    ensures sel.higherIsBetter == higher
  {
  }

  lemma ChoiceEvidence(r: Campaign, d: Dimension, s: Signature)
    requires MeetsSignatureOnce(r, d, s)
    ensures Choice(r, d, s).evidence == EvidenceIds(r, Tail(d) + "/" + Numeral(ChosenIndex(r, d, s)))
  {
  }

  // ----- rates

  function Text(written: Option<string>): string {
    match written
    case None => ""
    case Some(text) => text
  }

  predicate SameContext(a: Rate, b: Rate) {
    && a.kind == b.kind && a.period == b.period && a.grossNet == b.grossNet
    && a.referenceStartsOn == b.referenceStartsOn && a.referenceEndsOn == b.referenceEndsOn
    && a.termMonths == b.termMonths && Text(a.basisLabel) == Text(b.basisLabel)
  }

  lemma RateContext(a: Rate, b: Rate)
    ensures RateSignature(a) == RateSignature(b) <==> SameContext(a, b)
  {
  }

  lemma RateOffer(a: Rate, o: Offer, s: Signature)
    requires RateEntry(a) == Success(o) && Meets(o, s)
    ensures o == Offer(RateSignature(a), false, Some(a.valuePercent), Some(Percent))
    ensures s == RateSignature(a) && RateIssue(a).None?
  {
  }

  /** The rate a record shows, by its place in the record's list. */
  lemma ChosenRate(records: seq<Campaign>, sel: Selection, i: nat) returns (k: nat)
    requires records != [] && Select(records, RateDimension) == Success(sel) && i < |records|
    ensures |Common(AllOffers(records, RateDimension))| == 1 && |sel.chosen| == |records|
    ensures k < |records[i].rates|
    ensures var a := records[i].rates[k];
            && RateIssue(a).None?
            && TheCommon(records, RateDimension) == RateSignature(a)
            && sel.chosen[i].offer == Offer(RateSignature(a), false, Some(a.valuePercent), Some(Percent))
            && sel.chosen[i].evidence == EvidenceIds(records[i], "/rates/" + Numeral(k))
            && sel.higherIsBetter == HigherRateIsBetter(a.kind)
    ensures forall m :: 0 <= m < |records[i].rates| && SameContext(records[i].rates[m], records[i].rates[k]) ==> m == k
  {
    k := ChoiceAt(records, RateDimension, sel, i);
    EntryAt(records[i], RateDimension, k);
    RateOffer(records[i].rates[k], sel.chosen[i].offer, TheCommon(records, RateDimension));
    SelectedUnderCommon(records, RateDimension, sel);
    NoIssues(records, RateDimension, i);
    RateIsAlone(records[i], TheCommon(records, RateDimension), k);
    UnderRates(k);
  }

  lemma UnderRates(k: nat)
    ensures Tail(RateDimension) + "/" + Numeral(k) == "/rates/" + Numeral(k)
  {
    assert Tail(RateDimension) + "/" == "/rates/";
  }

  lemma RateIsAlone(r: Campaign, s: Signature, k: nat)
    requires FirstFailure(Entries(r, RateDimension)).None?
    requires k < |r.rates| && s == RateSignature(r.rates[k])
    requires OnlyEntry(r, RateDimension, s, k)
    ensures forall m :: 0 <= m < |r.rates| && SameContext(r.rates[m], r.rates[k]) ==> m == k
  {
    forall m | 0 <= m < |r.rates| && SameContext(r.rates[m], r.rates[k])
      ensures m == k
    {
      OffersAreEntries(Entries(r, RateDimension));
      EntryAt(r, RateDimension, m);
      RateContext(r.rates[m], r.rates[k]);
      assert EntryMeets(Entries(r, RateDimension)[m], s);
    }
  }

  /** What the outcome of a rate says: the rate's own figure, in percent, and the evidence under it. */
  predicate ShowsRate(o: Outcome, r: Campaign, k: nat)
    requires k < |r.rates|
  {
    && o.campaign == r.id && o.dimension == RateDimension && o.comparable
    && o.value == Some(r.rates[k].valuePercent) && o.unit == Some(Percent)
    && o.evidence == EvidenceIds(r, "/rates/" + Numeral(k))
    && o.reason == (match r.rates[k].kind
                    case FinancingProfitRate => RankedLowerIsBetter
                    case AnnualCostRate => RankedLowerIsBetter
                    case _ => RankedHigherIsBetter)
  }

  /** Of two rates shown side by side: one context, and the order their kind calls for. */
  predicate RateOrder(a: Rate, b: Rate, p: Outcome, q: Outcome) {
    && SameContext(a, b) && a.kind != UnknownRate
    && (Tie(p, q) <==> a.valuePercent == b.valuePercent)
    && (Ahead(p, q) <==>
          match a.kind
          case FinancingProfitRate => a.valuePercent < b.valuePercent
          case AnnualCostRate => a.valuePercent < b.valuePercent
          case _ => a.valuePercent > b.valuePercent)
  }

  /** Every successful rate comparison shows one rate of each record, the only one of its context
      there, and all in one context. Financing and cost rates rank the lower the better; the other
      kinds the higher; equal rates tie. */
  lemma RatesRankByKind(records: seq<Campaign>, i: nat, j: nat) returns (k: nat, l: nat)
    requires records != [] && Select(records, RateDimension).Success?
    requires i < |records| && j < |records|
    ensures |DimensionOutcomes(records, RateDimension)| == |records|
    ensures k < |records[i].rates| && l < |records[j].rates|
    ensures ShowsRate(DimensionOutcomes(records, RateDimension)[i], records[i], k)
    ensures ShowsRate(DimensionOutcomes(records, RateDimension)[j], records[j], l)
    ensures RateOrder(records[i].rates[k], records[j].rates[l],
                      DimensionOutcomes(records, RateDimension)[i], DimensionOutcomes(records, RateDimension)[j])
    ensures forall m :: 0 <= m < |records[i].rates| && SameContext(records[i].rates[m], records[j].rates[l]) ==> m == k
  {
    var sel := Select(records, RateDimension).value;
    k := ShownRate(records, sel, i);
    l := ShownRate(records, sel, j);
    var a, b := records[i].rates[k], records[j].rates[l];
    FiguresDecide(records, RateDimension, sel, i, j, a.valuePercent, b.valuePercent);
    RateContext(a, b);
    KindIsKnown(a);
  }

  lemma KindIsKnown(a: Rate)
    requires RateIssue(a).None?
    ensures a.kind != UnknownRate
    ensures HigherRateIsBetter(a.kind) <==> a.kind != FinancingProfitRate && a.kind != AnnualCostRate
  {
  }

  lemma ShownRate(records: seq<Campaign>, sel: Selection, i: nat) returns (k: nat)
    requires records != [] && Select(records, RateDimension) == Success(sel) && i < |records|
    ensures |Common(AllOffers(records, RateDimension))| == 1
    ensures |sel.chosen| == |records| == |DimensionOutcomes(records, RateDimension)|
    ensures k < |records[i].rates|
    ensures var a := records[i].rates[k];
            && RateIssue(a).None?
            && TheCommon(records, RateDimension) == RateSignature(a)
            && !sel.chosen[i].offer.waived && sel.chosen[i].offer.value == Some(a.valuePercent)
            && sel.higherIsBetter == HigherRateIsBetter(a.kind)
    ensures ShowsRate(DimensionOutcomes(records, RateDimension)[i], records[i], k)
    ensures forall m :: 0 <= m < |records[i].rates| && SameContext(records[i].rates[m], records[i].rates[k]) ==> m == k
  {
    k := ChosenRate(records, sel, i);
    OutcomeReports(records, RateDimension, sel, i);
    KindIsKnown(records[i].rates[k]);
  }

  // ----- terms

  lemma {:induction false} LongestIsMaximum(terms: seq<Term>)
    requires terms != []
    ensures forall t :: t in terms ==> t.maximumMonths <= MaxMonths(terms)
    ensures exists t :: t in terms && t.maximumMonths == MaxMonths(terms)
  {
    if |terms| == 1 {
      assert terms[0] in terms;
    } else {
      LongestIsMaximum(terms[1..]);
      assert terms == [terms[0]] + terms[1..];
    }
  }

  lemma TermSelection(records: seq<Campaign>, sel: Selection)
    requires records != [] && Select(records, TermDimension) == Success(sel)
    ensures forall r :: r in records ==> r.terms != []
    ensures sel.higherIsBetter && sel.chosen == LongestTerms(records)
  {
    NoneWithout(records, TermDimension);
  }

  predicate ShowsTerm(o: Outcome, r: Campaign, months: int) {
    && o.campaign == r.id && o.dimension == TermDimension && o.comparable
    && o.value == Some(months as real) && o.unit == Some(Months)
    && o.evidence == EvidenceIds(r, "/terms") && o.reason == RankedHigherIsBetter
  }

  predicate IsLongest(months: int, terms: seq<Term>) {
    && (forall t :: t in terms ==> t.maximumMonths <= months)
    && exists t :: t in terms && t.maximumMonths == months
  }

  lemma ShownTerm(records: seq<Campaign>, sel: Selection, i: nat) returns (m: int)
    requires records != [] && Select(records, TermDimension) == Success(sel) && i < |records|
    ensures |sel.chosen| == |records| == |DimensionOutcomes(records, TermDimension)|
    ensures IsLongest(m, records[i].terms)
    ensures ShowsTerm(DimensionOutcomes(records, TermDimension)[i], records[i], m)
    ensures !sel.chosen[i].offer.waived && sel.chosen[i].offer.value == Some(m as real) && sel.higherIsBetter
  {
    TermSelection(records, sel);
    m := MaxMonths(records[i].terms);
    LongestIsMaximum(records[i].terms);
    OutcomeReports(records, TermDimension, sel, i);
  }

  /** Every successful term comparison shows the longest term of each record, and the longer ranks
      ahead; equal ones tie. */
  lemma LongerTermsRankFirst(records: seq<Campaign>, i: nat, j: nat) returns (m: int, n: int)
    requires records != [] && Select(records, TermDimension).Success?
    requires i < |records| && j < |records|
    ensures |DimensionOutcomes(records, TermDimension)| == |records|
    ensures IsLongest(m, records[i].terms) && IsLongest(n, records[j].terms)
    ensures ShowsTerm(DimensionOutcomes(records, TermDimension)[i], records[i], m)
    ensures ShowsTerm(DimensionOutcomes(records, TermDimension)[j], records[j], n)
    ensures Ahead(DimensionOutcomes(records, TermDimension)[i], DimensionOutcomes(records, TermDimension)[j]) <==> m > n
    ensures Tie(DimensionOutcomes(records, TermDimension)[i], DimensionOutcomes(records, TermDimension)[j]) <==> m == n
  {
    var sel := Select(records, TermDimension).value;
    m := ShownTerm(records, sel, i);
    n := ShownTerm(records, sel, j);
    FiguresDecide(records, TermDimension, sel, i, j, m as real, n as real);
  }

  // ----- fees

  lemma FeeOffered(f: Fee, o: Offer, s: Signature)
    requires FeeEntry(f) == Success(o) && Meets(o, s)
    ensures FeeIssue(f).None? && s.FeeSig? && s.feeKind == f.kind && s.feeBasis == f.basis
    ensures f.waived ==> o.waived && o.value.None? && o.unit.None?
    ensures !f.waived ==> !o.waived && s == FeeSignature(f)
    ensures !f.waived && f.money.Some? ==> o.value == Some(f.money.value.amount) && o.unit == Some(CurrencyUnit(f.money.value.currency))
    ensures !f.waived && f.money.None? ==> f.rate.Some? && o.value == Some(f.rate.value.valuePercent) && o.unit == Some(Percent)
  {
  }

  /** The figure a fee ranks by: none when it is waived, else its amount, else its rate. */
  predicate FeeFigure(f: Fee, value: Option<real>, unit: Option<Unit>) {
    if f.waived then value.None? && unit.None?
    else if f.money.Some? then
      value == Some(f.money.value.amount) && unit == Some(CurrencyUnit(f.money.value.currency))
    else
      f.rate.Some? && value == Some(f.rate.value.valuePercent) && unit == Some(Percent)
  }

  predicate ShowsFee(o: Outcome, r: Campaign, k: nat)
    requires k < |r.fees|
  {
    && o.campaign == r.id && o.dimension == FeeDimension && o.comparable
    && FeeFigure(r.fees[k], o.value, o.unit)
    && o.evidence == EvidenceIds(r, "/fees/" + Numeral(k)) && o.reason == RankedLowerIsBetter
  }

  /** Prices in one currency, or rates of one context. */
  predicate SamePricing(a: Fee, b: Fee) {
    && (a.money.Some? ==> b.money.Some? && a.money.value.currency == b.money.value.currency)
    && (a.money.None? ==>
          && b.money.None? && a.rate.Some? && b.rate.Some?
          && a.rate.value.period == b.rate.value.period && a.rate.value.grossNet == b.rate.value.grossNet
          && Text(a.rate.value.basisLabel) == Text(b.rate.value.basisLabel))
  }

  lemma PricedAlike(a: Fee, b: Fee)
    requires FeeIssue(a).None? && FeeIssue(b).None? && !a.waived && !b.waived
    ensures FeeSignature(a) == FeeSignature(b) <==> a.kind == b.kind && a.basis == b.basis && SamePricing(a, b)
  {
  }

  lemma UnderFees(k: nat)
    ensures Tail(FeeDimension) + "/" + Numeral(k) == "/fees/" + Numeral(k)
  {
    assert Tail(FeeDimension) + "/" == "/fees/";
  }

  lemma ShownFee(records: seq<Campaign>, sel: Selection, i: nat) returns (k: nat)
    requires records != [] && Select(records, FeeDimension) == Success(sel) && i < |records|
    ensures |Common(AllOffers(records, FeeDimension))| == 1
    ensures |sel.chosen| == |records| == |DimensionOutcomes(records, FeeDimension)|
    ensures k < |records[i].fees|
    ensures var f, o, s := records[i].fees[k], sel.chosen[i].offer, TheCommon(records, FeeDimension);
            && FeeIssue(f).None? && s.FeeSig? && s.feeKind == f.kind && s.feeBasis == f.basis
            && (!f.waived ==> s == FeeSignature(f))
            && o.waived == f.waived && FeeFigure(f, o.value, o.unit) && !sel.higherIsBetter
    ensures ShowsFee(DimensionOutcomes(records, FeeDimension)[i], records[i], k)
  {
    k := ChoiceAt(records, FeeDimension, sel, i);
    EntryAt(records[i], FeeDimension, k);
    FeeOffered(records[i].fees[k], sel.chosen[i].offer, TheCommon(records, FeeDimension));
    OutcomeReports(records, FeeDimension, sel, i);
    UnderFees(k);
  }

  lemma WaiverKeys(a: Chosen, b: Chosen)
    requires (!a.offer.waived ==> a.offer.value.Some?) && (!b.offer.waived ==> b.offer.value.Some?)
    requires a.offer.waived
    ensures Ranking.Better(KeyOf(a), KeyOf(b), false) <==> !b.offer.waived
    ensures !Ranking.Better(KeyOf(b), KeyOf(a), false)
    ensures KeyOf(a) == KeyOf(b) <==> b.offer.waived
  {
  }

  /** The order of two fees: a waiver ahead of any price, waivers level, and the lower price first. */
  predicate FeeOrder(a: Fee, b: Fee, p: Outcome, q: Outcome) {
    && a.kind == b.kind && a.basis == b.basis && (!a.waived && !b.waived ==> SamePricing(a, b))
    && (Ahead(p, q) <==>
          && !b.waived
          && (a.waived || (p.value.Some? && q.value.Some? && p.value.value < q.value.value)))
    && (Tie(p, q) <==> (a.waived && b.waived) || (!a.waived && !b.waived && p.value == q.value))
  }

  lemma FeeKeysDecide(records: seq<Campaign>, sel: Selection, i: nat, j: nat)
    requires records != [] && Select(records, FeeDimension) == Success(sel)
    requires i < |records| && j < |records| && |sel.chosen| == |records| && !sel.higherIsBetter
    requires sel.chosen[i].offer.waived || sel.chosen[j].offer.waived
    ensures |DimensionOutcomes(records, FeeDimension)| == |records|
    ensures var out := DimensionOutcomes(records, FeeDimension);
            && (Ahead(out[i], out[j]) <==> sel.chosen[i].offer.waived && !sel.chosen[j].offer.waived)
            && (Tie(out[i], out[j]) <==> sel.chosen[i].offer.waived && sel.chosen[j].offer.waived)
  {
    RanksAreDense(records, FeeDimension, sel, i, j);
    if sel.chosen[i].offer.waived {
      WaiverKeys(sel.chosen[i], sel.chosen[j]);
    } else {
      WaiverKeys(sel.chosen[j], sel.chosen[i]);
    }
  }

  /** Every successful fee comparison shows one fee of each record, all of one kind and basis, and the
      priced ones in one currency or one rate context. Waivers rank first and level, then the lower
      price. */
  lemma LowerFeesRankFirst(records: seq<Campaign>, i: nat, j: nat) returns (k: nat, l: nat)
    requires records != [] && Select(records, FeeDimension).Success?
    requires i < |records| && j < |records|
    ensures |DimensionOutcomes(records, FeeDimension)| == |records|
    ensures k < |records[i].fees| && l < |records[j].fees|
    ensures ShowsFee(DimensionOutcomes(records, FeeDimension)[i], records[i], k)
    ensures ShowsFee(DimensionOutcomes(records, FeeDimension)[j], records[j], l)
    ensures FeeOrder(records[i].fees[k], records[j].fees[l],
                     DimensionOutcomes(records, FeeDimension)[i], DimensionOutcomes(records, FeeDimension)[j])
  {
    var sel := Select(records, FeeDimension).value;
    k := ShownFee(records, sel, i);
    l := ShownFee(records, sel, j);
    var a, b := records[i].fees[k], records[j].fees[l];
    if a.waived || b.waived {
      FeeKeysDecide(records, sel, i, j);
    } else {
      PricedAlike(a, b);
      FiguresDecide(records, FeeDimension, sel, i, j, sel.chosen[i].offer.value.value, sel.chosen[j].offer.value.value);
    }
  }

  // ----- rewards

  /** The figure a reward ranks by: its amount, else its points, else its rate. */
  predicate RewardFigure(w: Reward, value: Option<real>, unit: Option<Unit>) {
    if w.money.Some? then
      value == Some(w.money.value.amount) && unit == Some(CurrencyUnit(w.money.value.currency))
    else if w.points.Some? then value == w.points && unit == Some(PointsUnit)
    else w.rate.Some? && value == Some(w.rate.value.valuePercent) && unit == Some(Percent)
  }

  /** Rewards of one kind and basis, under the same limits; points of one programme; and, where the
      kind leaves it open, both amounts of one currency or both rates of one context. */
  predicate SameTerms(a: Reward, b: Reward) {
    && a.kind == b.kind && a.basis == b.basis
    && SameLimit(a.minimumSpend, b.minimumSpend) && SameLimit(a.maximumMoney, b.maximumMoney)
    && a.maximumPoints == b.maximumPoints
    && match a.kind
       case MoneyReward => a.money.Some? && b.money.Some? && a.money.value.currency == b.money.value.currency
       case Points => Text(a.programName) == Text(b.programName)
       case _ =>
         || (a.money.Some? && b.money.Some? && a.money.value.currency == b.money.value.currency)
         || (a.money.None? && b.money.None? && a.rate.Some? && b.rate.Some? && SameContext(a.rate.value, b.rate.value))
  }

  predicate SameLimit(a: Option<Money>, b: Option<Money>) {
    if a.None? then b.None?
    else b.Some? && a.value.currency == b.value.currency && a.value.text == b.value.text
  }

  lemma LimitContext(a: Option<Money>, b: Option<Money>)
    ensures MoneyContext(a) == MoneyContext(b) <==> SameLimit(a, b)
  {
  }

  lemma RewardContext(a: Reward, b: Reward)
    requires RewardIssue(a).None? && RewardIssue(b).None?
    ensures RewardSignature(a) == RewardSignature(b) <==> SameTerms(a, b)
  {
    LimitContext(a.minimumSpend, b.minimumSpend);
    LimitContext(a.maximumMoney, b.maximumMoney);
    if a.rate.Some? && b.rate.Some? {
      RateContext(a.rate.value, b.rate.value);
    }
  }

  lemma RewardOffered(w: Reward, o: Offer, s: Signature)
    requires RewardEntry(w) == Success(o) && Meets(o, s)
    ensures RewardIssue(w).None? && s == RewardSignature(w) && !o.waived && o.value.Some?
    ensures RewardFigure(w, o.value, o.unit)
  {
  }

  predicate ShowsReward(o: Outcome, r: Campaign, k: nat)
    requires k < |r.rewards|
  {
    && o.campaign == r.id && o.dimension == RewardDimension && o.comparable && o.value.Some?
    && RewardFigure(r.rewards[k], o.value, o.unit)
    && o.evidence == EvidenceIds(r, "/rewards/" + Numeral(k)) && o.reason == RankedHigherIsBetter
  }

  lemma UnderRewards(k: nat)
    ensures Tail(RewardDimension) + "/" + Numeral(k) == "/rewards/" + Numeral(k)
  {
    assert Tail(RewardDimension) + "/" == "/rewards/";
  }

  lemma ShownReward(records: seq<Campaign>, sel: Selection, i: nat) returns (k: nat)
    requires records != [] && Select(records, RewardDimension) == Success(sel) && i < |records|
    ensures |Common(AllOffers(records, RewardDimension))| == 1
    ensures |sel.chosen| == |records| == |DimensionOutcomes(records, RewardDimension)|
    ensures k < |records[i].rewards|
    ensures RewardIssue(records[i].rewards[k]).None?
    ensures RewardSignature(records[i].rewards[k]) == TheCommon(records, RewardDimension)
    ensures !sel.chosen[i].offer.waived && sel.chosen[i].offer.value.Some? && sel.higherIsBetter
    ensures sel.chosen[i].offer.value == DimensionOutcomes(records, RewardDimension)[i].value
    ensures ShowsReward(DimensionOutcomes(records, RewardDimension)[i], records[i], k)
  {
    k := ChoiceAt(records, RewardDimension, sel, i);
    EntryAt(records[i], RewardDimension, k);
    RewardOffered(records[i].rewards[k], sel.chosen[i].offer, TheCommon(records, RewardDimension));
    OutcomeReports(records, RewardDimension, sel, i);
    UnderRewards(k);
  }

  /** Every successful reward comparison shows one reward of each record, all on the same terms, and
      the higher figure ranks ahead; equal figures tie. */
  lemma HigherRewardsRankFirst(records: seq<Campaign>, i: nat, j: nat) returns (k: nat, l: nat)
    requires records != [] && Select(records, RewardDimension).Success?
    requires i < |records| && j < |records|
    ensures |DimensionOutcomes(records, RewardDimension)| == |records|
    ensures k < |records[i].rewards| && l < |records[j].rewards|
    ensures ShowsReward(DimensionOutcomes(records, RewardDimension)[i], records[i], k)
    ensures ShowsReward(DimensionOutcomes(records, RewardDimension)[j], records[j], l)
    ensures SameTerms(records[i].rewards[k], records[j].rewards[l])
    ensures var p, q := DimensionOutcomes(records, RewardDimension)[i], DimensionOutcomes(records, RewardDimension)[j];
            && (Ahead(p, q) <==> p.value.value > q.value.value)
            && (Tie(p, q) <==> p.value == q.value)
  {
    var sel := Select(records, RewardDimension).value;
    k := ShownReward(records, sel, i);
    l := ShownReward(records, sel, j);
    RewardContext(records[i].rewards[k], records[j].rewards[l]);
    FiguresDecide(records, RewardDimension, sel, i, j, sel.chosen[i].offer.value.value, sel.chosen[j].offer.value.value);
  }

  /** Ranks leave no gap: from 1 up to any rank in use, every rank is in use. */
  lemma EveryRankBelowIsUsed(records: seq<Campaign>, d: Dimension, i: nat, rank: nat)
    requires records != [] && d != Eligibility && Select(records, d).Success? && i < |records|
    ensures |DimensionOutcomes(records, d)| == |records| && DimensionOutcomes(records, d)[i].rank.Some?
    ensures 1 <= DimensionOutcomes(records, d)[i].rank.value
    ensures 1 <= rank <= DimensionOutcomes(records, d)[i].rank.value ==>
              exists m :: 0 <= m < |records| && DimensionOutcomes(records, d)[m].rank == Some(rank)
  {
    var sel := Select(records, d).value;
    RanksAreDense(records, d, sel, i, i);
    RanksAreContiguous(records, d, sel, DimensionOutcomes(records, d)[i].rank.value);
    RanksAreContiguous(records, d, sel, rank);
  }
}
