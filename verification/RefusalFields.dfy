/** Why a dimension refuses its records, and when it does not, in the fields of what they state. */
module RefusalFields {
  import opened Wrappers
  import opened Contracts
  import opened Signatures
  import opened Digits
  import opened Ordering
  import opened Comparison
  import opened ReportTheorems
  import opened ChosenValues
  import opened RankedFields

  // ----- what a record states

  function Count(r: Campaign, d: Dimension): nat {
    match d
    case RateDimension => |r.rates|
    case FeeDimension => |r.fees|
    case RewardDimension => |r.rewards|
    case TermDimension => |r.terms|
    case Eligibility => 0
  }

  /** Why a rate cannot be compared, kind by kind. */
  function RateTrouble(r: Rate): Option<Reason> {
    if r.status == Unknown || r.status == Ambiguous then Some(RateBasisUnknown)
    else
      var period := if r.period == UnspecifiedPeriod then Some(RatePeriodUnknown) else None;
      match r.kind
      case UnknownRate => Some(RateKindUnknown)
      case LtvRatio => None
      case DiscountRate | RewardRate => period
      case FinancingProfitRate | AnnualCostRate =>
        if period.Some? then period
        else if r.termMonths.Some? && r.termMonths.value > 0 then None else Some(RateTermContextUnknown)
      case ProfitShareDistributionRate =>
        if period.Some? then period
        else if r.grossNet == UnspecifiedGrossNet then Some(RateGrossNetBasisUnknown) else None
      case HistoricalReturnRate =>
        if period.Some? then period
        else if r.grossNet == UnspecifiedGrossNet then Some(RateGrossNetBasisUnknown)
        else if r.referenceStartsOn.Some? && r.referenceEndsOn.Some? then None else Some(RateReferenceWindowUnknown)
  }

  /** Why a fee cannot be compared: a waiver needs no figure, a price exactly one. */
  function FeeTrouble(f: Fee): Option<Reason> {
    if f.status == Unknown || f.status == Ambiguous then Some(FeeBasisUnknown)
    else if f.kind == UnknownFee then Some(FeeKindUnknown)
    else if f.basis == UnspecifiedFeeBasis then Some(FeeBasisUnknown)
    else
      match (f.waived, f.money, f.rate)
      case (true, _, _) => None
      case (false, Some(_), None) => None
      case (false, None, Some(rate)) =>
        if rate.status != Unknown && rate.status != Ambiguous && rate.period != UnspecifiedPeriod && rate.basisLabel.Some?
        then None else Some(FeeRateContextUnknown)
      case _ => Some(FeeNotNumeric)
  }

  /** Why a reward cannot be compared, kind by kind. */
  function RewardTrouble(w: Reward): Option<Reason> {
    if w.status == Unknown || w.status == Ambiguous || w.basis == UnspecifiedRewardBasis then Some(RewardBasisUnknown)
    else
      var rate := if w.rate.Some? && RateTrouble(w.rate.value).Some? then Some(RewardRateContextUnknown) else None;
      match w.kind
      case Points =>
        if w.programName.None? then Some(RewardProgramUnknown) else if w.points.None? then Some(RewardNotNumeric) else rate
      case MoneyReward => if w.money.None? then Some(RewardNotNumeric) else rate
      case Discount => if w.money.None? && w.rate.None? then Some(RewardNotNumeric) else rate
      case FreeService | OtherReward => if rate.Some? then rate else Some(RewardNotNumeric)
  }

  function Trouble(r: Campaign, d: Dimension, k: nat): Option<Reason>
    requires k < Count(r, d)
  {
    match d
    case RateDimension => RateTrouble(r.rates[k])
    case FeeDimension => FeeTrouble(r.fees[k])
    case RewardDimension => RewardTrouble(r.rewards[k])
    case TermDimension =>
      if r.terms[k].status == Unknown || r.terms[k].status == Ambiguous then Some(TermAmbiguous) else None
    case Eligibility => None
  }

  lemma RateTroubleDecides(r: Rate)
    ensures RateIssue(r) == RateTrouble(r)
  {
  }

  lemma FeeTroubleDecides(f: Fee)
    ensures FeeIssue(f) == FeeTrouble(f)
  {
  }

  lemma RewardTroubleDecides(w: Reward)
    ensures RewardIssue(w) == RewardTrouble(w)
  {
    if w.rate.Some? {
      RateTroubleDecides(w.rate.value);
    }
  }

  lemma TroubleDecides(r: Campaign, d: Dimension, k: nat)
    requires k < Count(r, d)
    ensures Count(r, d) == |Entries(r, d)|
    ensures Entries(r, d)[k].Failure? <==> Trouble(r, d, k).Some?
    ensures Entries(r, d)[k].Failure? ==> Trouble(r, d, k) == Some(Entries(r, d)[k].error)
  {
    match d
    case RateDimension => RateTroubleDecides(r.rates[k]);
    case FeeDimension => FeeTroubleDecides(r.fees[k]);
    case RewardDimension => RewardTroubleDecides(r.rewards[k]);
    case _ =>
  }

  lemma CountsEntries(r: Campaign, d: Dimension)
    ensures Count(r, d) == |Entries(r, d)|
  {
  }

  // ----- the first trouble, in record and value order

  predicate Before(x: nat, y: nat, a: nat, b: nat) {
    x < a || (x == a && y < b)
  }

  predicate TroubleAt(records: seq<Campaign>, d: Dimension, a: nat, b: nat) {
    a < |records| && b < Count(records[a], d) && Trouble(records[a], d, b).Some?
  }

  /** The b-th value of the a-th record is the first that cannot be compared, for this reason. */
  ghost predicate FirstTrouble(records: seq<Campaign>, d: Dimension, a: nat, b: nat, reason: Reason) {
    && a < |records| && b < Count(records[a], d) && Trouble(records[a], d, b) == Some(reason)
    && forall x: nat, y: nat :: Before(x, y, a, b) ==> !TroubleAt(records, d, x, y)
  }

  ghost predicate Untroubled(records: seq<Campaign>, d: Dimension) {
    forall x: nat, y: nat :: !TroubleAt(records, d, x, y)
  }

  lemma {:induction false} FirstFailureAt(entries: seq<Entry>) returns (b: nat)
    ensures FirstFailure(entries).None? ==> forall y :: 0 <= y < |entries| ==> entries[y].Success?
    ensures FirstFailure(entries).Some? ==>
              && b < |entries| && entries[b] == Failure(FirstFailure(entries).value)
              && forall y :: 0 <= y < b ==> entries[y].Success?
  {
    b := 0;
    if entries != [] && entries[0].Success? {
      var rest := FirstFailureAt(entries[1..]);
      b := rest + 1;
    }
  }

  lemma OwnTrouble(r: Campaign, d: Dimension) returns (b: nat)
    ensures FirstFailure(Entries(r, d)).None? ==> forall y :: 0 <= y < Count(r, d) ==> Trouble(r, d, y).None?
    ensures FirstFailure(Entries(r, d)).Some? ==>
              && b < Count(r, d) && Trouble(r, d, b) == FirstFailure(Entries(r, d))
              && forall y :: 0 <= y < b ==> Trouble(r, d, y).None?
  {
    b := FirstFailureAt(Entries(r, d));
    CountsEntries(r, d);
    forall y | 0 <= y < Count(r, d)
      ensures Entries(r, d)[y].Failure? <==> Trouble(r, d, y).Some?
      ensures Entries(r, d)[y].Failure? ==> Trouble(r, d, y) == Some(Entries(r, d)[y].error)
    {
      TroubleDecides(r, d, y);
    }
  }

  lemma {:induction false} FirstIssueAt(records: seq<Campaign>, d: Dimension) returns (a: nat, b: nat)
    ensures FirstIssue(records, d).None? ==> Untroubled(records, d)
    ensures FirstIssue(records, d).Some? ==> FirstTrouble(records, d, a, b, FirstIssue(records, d).value)
  {
    a, b := 0, 0;
    if records != [] {
      b := OwnTrouble(records[0], d);
      if FirstFailure(Entries(records[0], d)).None? {
        var x, y := FirstIssueAt(records[1..], d);
        a, b := x + 1, y;
        RestTroubles(records, d);
      }
    }
  }

  lemma RestTroubles(records: seq<Campaign>, d: Dimension)
    requires records != [] && forall y :: 0 <= y < Count(records[0], d) ==> Trouble(records[0], d, y).None?
    ensures forall x: nat, y: nat :: TroubleAt(records, d, x, y) <==> x > 0 && TroubleAt(records[1..], d, x - 1, y)
  {
  }

  // ----- what the records have in common

  predicate SameFeeOf(f: Fee, g: Fee) {
    f.kind == g.kind && f.basis == g.basis
  }

  /** Whether one stated value serves a comparison by another: a rate of the same context; a reward on
      the same terms; a fee of the same kind and basis that is waived, or priced alike. */
  predicate Serves(r: Campaign, q: Campaign, d: Dimension, k: nat, l: nat)
    requires k < Count(r, d) && l < Count(q, d)
  {
    match d
    case RateDimension => SameContext(r.rates[k], q.rates[l])
    case RewardDimension => SameTerms(r.rewards[k], q.rewards[l])
    case FeeDimension =>
      && SameFeeOf(r.fees[k], q.fees[l])
      && (q.fees[l].waived || (!r.fees[k].waived && SamePricing(r.fees[k], q.fees[l])))
    case _ => true
  }

  /** Whether two stated values ask for the same comparison. */
  predicate Alike(r: Campaign, q: Campaign, d: Dimension, k: nat, l: nat)
    requires k < Count(r, d) && l < Count(q, d)
  {
    && Serves(r, q, d, k, l)
    && (d == FeeDimension ==> (r.fees[k].waived <==> q.fees[l].waived))
  }

  predicate AnyServes(r: Campaign, q: Campaign, d: Dimension, k: nat)
    requires k < Count(r, d)
  {
    exists l: nat :: l < Count(q, d) && Serves(r, q, d, k, l)
  }

  /** The record prices the kind and basis of a fee. */
  predicate PricesKind(q: Campaign, f: Fee) {
    exists l: nat :: l < |q.fees| && !q.fees[l].waived && SameFeeOf(q.fees[l], f)
  }

  /** Every record has a value that serves this one; and a waiver is compared only where no record
      prices its kind and basis. */
  predicate Shared(records: seq<Campaign>, d: Dimension, a: nat, k: nat)
    requires a < |records| && k < Count(records[a], d)
  {
    && (forall i :: 0 <= i < |records| ==> AnyServes(records[a], records[i], d, k))
    && (d == FeeDimension && records[a].fees[k].waived ==>
          forall i :: 0 <= i < |records| ==> !PricesKind(records[i], records[a].fees[k]))
  }

  // ----- from values to offers

  predicate Clean(r: Campaign, d: Dimension) {
    forall y :: 0 <= y < Count(r, d) ==> Trouble(r, d, y).None?
  }

  lemma CleanOffers(r: Campaign, d: Dimension)
    requires Clean(r, d)
    ensures FirstFailure(Entries(r, d)).None?
    ensures |OffersOf(r, d)| == Count(r, d) == |Entries(r, d)|
    ensures forall k :: 0 <= k < Count(r, d) ==> Entries(r, d)[k] == Success(OffersOf(r, d)[k])
  {
    var b := OwnTrouble(r, d);
    CountsEntries(r, d);
    OffersAreEntries(Entries(r, d));
  }

  lemma OfferAt(r: Campaign, d: Dimension, k: nat)
    requires Clean(r, d) && k < Count(r, d)
    ensures |OffersOf(r, d)| == Count(r, d)
    ensures d == RateDimension ==> RateEntry(r.rates[k]) == Success(OffersOf(r, d)[k])
    ensures d == FeeDimension ==> FeeEntry(r.fees[k]) == Success(OffersOf(r, d)[k])
    ensures d == RewardDimension ==> RewardEntry(r.rewards[k]) == Success(OffersOf(r, d)[k])
  {
    CleanOffers(r, d);
    EntryAt(r, d, k);
  }

  lemma RatesServe(a: Rate, b: Rate, o: Offer, p: Offer)
    requires RateEntry(a) == Success(o) && RateEntry(b) == Success(p)
    ensures !o.waived && !p.waived
    ensures Meets(p, o.signature) <==> SameContext(a, b)
    ensures p.signature == o.signature <==> SameContext(a, b)
  {
    RateContext(a, b);
  }

  lemma RewardsServe(a: Reward, b: Reward, o: Offer, p: Offer)
    requires RewardEntry(a) == Success(o) && RewardEntry(b) == Success(p)
    ensures !o.waived && !p.waived
    ensures Meets(p, o.signature) <==> SameTerms(a, b)
    ensures p.signature == o.signature <==> SameTerms(a, b)
  {
    RewardContext(a, b);
  }

  lemma FeesServe(a: Fee, b: Fee, o: Offer, p: Offer)
    requires FeeEntry(a) == Success(o) && FeeEntry(b) == Success(p)
    ensures (o.waived <==> a.waived) && (p.waived <==> b.waived)
    ensures o.signature.FeeSig? && p.signature.FeeSig?
    ensures o.signature.mode == WaivedMode <==> a.waived
    ensures SamePair(p.signature, o.signature) <==> SameFeeOf(a, b)
    ensures Meets(p, o.signature) <==> SameFeeOf(a, b) && (b.waived || (!a.waived && SamePricing(a, b)))
    ensures p.signature == o.signature <==>
              SameFeeOf(a, b) && (a.waived <==> b.waived) && (b.waived || SamePricing(a, b))
  {
    if !a.waived && !b.waived {
      PricedAlike(a, b);
    }
  }

  /** Of two records without trouble: a value serves another exactly when its offer meets the other's
      signature, and they are alike exactly when the signatures are equal. */
  lemma OffersServe(r: Campaign, q: Campaign, d: Dimension, k: nat, l: nat)
    requires d == RateDimension || d == FeeDimension || d == RewardDimension
    requires Clean(r, d) && Clean(q, d) && k < Count(r, d) && l < Count(q, d)
    ensures |OffersOf(r, d)| == Count(r, d) && |OffersOf(q, d)| == Count(q, d)
    ensures Meets(OffersOf(q, d)[l], OffersOf(r, d)[k].signature) <==> Serves(r, q, d, k, l)
    ensures OffersOf(q, d)[l].signature == OffersOf(r, d)[k].signature <==> Alike(r, q, d, k, l)
  {
    OfferAt(r, d, k);
    OfferAt(q, d, l);
    match d
    case RateDimension => RatesServe(r.rates[k], q.rates[l], OffersOf(r, d)[k], OffersOf(q, d)[l]);
    case RewardDimension => RewardsServe(r.rewards[k], q.rewards[l], OffersOf(r, d)[k], OffersOf(q, d)[l]);
    case FeeDimension => FeesServe(r.fees[k], q.fees[l], OffersOf(r, d)[k], OffersOf(q, d)[l]);
  }

  ghost predicate AllClean(records: seq<Campaign>, d: Dimension) {
    forall i :: 0 <= i < |records| ==> Clean(records[i], d)
  }

  predicate MeetsAny(offers: seq<Offer>, s: Signature) {
    exists o :: o in offers && Meets(o, s)
  }

  lemma MeetsByPriceOrWaiver(offers: seq<Offer>, s: Signature)
    ensures MeetsAny(offers, s) <==> Prices(offers, s) || Waives(offers, s)
  {
    if o :| o in offers && Meets(o, s) {
      if o.waived {
        assert Waives(offers, s);
      } else {
        assert Prices(offers, s);
      }
    }
    if Prices(offers, s) {
      var o :| o in offers && !o.waived && o.signature == s;
      assert Meets(o, s);
    }
    if Waives(offers, s) {
      var o :| o in offers && o.waived && SamePair(o.signature, s);
      assert Meets(o, s);
    }
  }

  lemma PricedIsCommon(all: seq<seq<Offer>>, s: Signature, a: nat)
    requires a < |all| && Prices(all[a], s) && AllProper(all)
    ensures IsCommon(all, s) <==> forall i :: 0 <= i < |all| ==> MeetsAny(all[i], s)
  {
    forall i | 0 <= i < |all|
      ensures MeetsAny(all[i], s) <==> Prices(all[i], s) || Waives(all[i], s)
    {
      MeetsByPriceOrWaiver(all[i], s);
    }
    assert !(s.FeeSig? && s.mode == WaivedMode);
  }

  lemma WaiverIsCommon(all: seq<seq<Offer>>, s: Signature)
    requires AllProper(all) && s.FeeSig? && s.mode == WaivedMode
    ensures IsCommon(all, s) <==> forall i :: 0 <= i < |all| ==> MeetsAny(all[i], s) && !PricesPair(all[i], s)
  {
    forall i | 0 <= i < |all|
      ensures MeetsAny(all[i], s) <==> Waives(all[i], s)
      ensures !Prices(all[i], s)
    {
      MeetsByPriceOrWaiver(all[i], s);
    }
  }

  lemma AnyServesDecides(r: Campaign, q: Campaign, d: Dimension, k: nat)
    requires d == RateDimension || d == FeeDimension || d == RewardDimension
    requires Clean(r, d) && Clean(q, d) && k < Count(r, d)
    ensures |OffersOf(r, d)| == Count(r, d)
    ensures AnyServes(r, q, d, k) <==> MeetsAny(OffersOf(q, d), OffersOf(r, d)[k].signature)
  {
    CleanOffers(r, d);
    CleanOffers(q, d);
    var s := OffersOf(r, d)[k].signature;
    forall l: nat | l < Count(q, d)
      ensures Meets(OffersOf(q, d)[l], s) <==> Serves(r, q, d, k, l)
    {
      OffersServe(r, q, d, k, l);
    }
    if MeetsAny(OffersOf(q, d), s) {
      var o :| o in OffersOf(q, d) && Meets(o, s);
      var l :| 0 <= l < |OffersOf(q, d)| && OffersOf(q, d)[l] == o;
      assert Serves(r, q, d, k, l);
    }
    if AnyServes(r, q, d, k) {
      var l: nat :| l < Count(q, d) && Serves(r, q, d, k, l);
      assert OffersOf(q, d)[l] in OffersOf(q, d);
    }
  }

  lemma PricesKindDecides(q: Campaign, f: Fee, s: Signature)
    requires Clean(q, FeeDimension) && s.FeeSig? && s.feeKind == f.kind && s.feeBasis == f.basis
    ensures PricesKind(q, f) <==> PricesPair(OffersOf(q, FeeDimension), s)
  {
    CleanOffers(q, FeeDimension);
    var offers := OffersOf(q, FeeDimension);
    forall l: nat | l < |q.fees|
      ensures (!offers[l].waived && SamePair(offers[l].signature, s)) <==> (!q.fees[l].waived && SameFeeOf(q.fees[l], f))
    {
      OfferAt(q, FeeDimension, l);
      FeesServe(q.fees[l], q.fees[l], offers[l], offers[l]);
    }
    if PricesPair(offers, s) {
      var o :| o in offers && !o.waived && SamePair(o.signature, s);
      var l :| 0 <= l < |offers| && offers[l] == o;
      assert !q.fees[l].waived && SameFeeOf(q.fees[l], f);
    }
    if PricesKind(q, f) {
      var l: nat :| l < |q.fees| && !q.fees[l].waived && SameFeeOf(q.fees[l], f);
      assert offers[l] in offers;
    }
  }

  lemma WaivedSharedDecides(records: seq<Campaign>, a: nat, k: nat)
    requires AllClean(records, FeeDimension) && a < |records| && k < Count(records[a], FeeDimension)
    requires records[a].fees[k].waived
    ensures |OffersOf(records[a], FeeDimension)| == Count(records[a], FeeDimension)
    ensures Shared(records, FeeDimension, a, k)
        <==> IsCommon(AllOffers(records, FeeDimension), OffersOf(records[a], FeeDimension)[k].signature)
  {
    OfferAt(records[a], FeeDimension, k);
    var f, o := records[a].fees[k], OffersOf(records[a], FeeDimension)[k];
    FeesServe(f, f, o, o);
    AllOffersProper(records, FeeDimension);
    WaiverIsCommon(AllOffers(records, FeeDimension), o.signature);
    forall i | 0 <= i < |records|
      ensures AnyServes(records[a], records[i], FeeDimension, k) <==> MeetsAny(OffersOf(records[i], FeeDimension), o.signature)
      ensures PricesKind(records[i], f) <==> PricesPair(OffersOf(records[i], FeeDimension), o.signature)
    {
      AnyServesDecides(records[a], records[i], FeeDimension, k);
      PricesKindDecides(records[i], f, o.signature);
    }
  }

  predicate Waiver(r: Campaign, d: Dimension, k: nat)
    requires k < Count(r, d)
  {
    d == FeeDimension && r.fees[k].waived
  }

  lemma WaiverDecides(r: Campaign, d: Dimension, k: nat)
    requires d == RateDimension || d == FeeDimension || d == RewardDimension
    requires Clean(r, d) && k < Count(r, d)
    ensures |OffersOf(r, d)| == Count(r, d)
    ensures OffersOf(r, d)[k].waived <==> Waiver(r, d, k)
  {
    OfferAt(r, d, k);
    match d
    case RateDimension => RatesServe(r.rates[k], r.rates[k], OffersOf(r, d)[k], OffersOf(r, d)[k]);
    case RewardDimension => RewardsServe(r.rewards[k], r.rewards[k], OffersOf(r, d)[k], OffersOf(r, d)[k]);
    case FeeDimension => FeesServe(r.fees[k], r.fees[k], OffersOf(r, d)[k], OffersOf(r, d)[k]);
  }

  lemma PricedSharedDecides(records: seq<Campaign>, d: Dimension, a: nat, k: nat)
    requires d == RateDimension || d == FeeDimension || d == RewardDimension
    requires AllClean(records, d) && a < |records| && k < Count(records[a], d) && !Waiver(records[a], d, k)
    ensures |OffersOf(records[a], d)| == Count(records[a], d)
    ensures Shared(records, d, a, k) <==> IsCommon(AllOffers(records, d), OffersOf(records[a], d)[k].signature)
  {
    WaiverDecides(records[a], d, k);
    var all, o := AllOffers(records, d), OffersOf(records[a], d)[k];
    AllOffersProper(records, d);
    assert o in all[a];
    PricedIsCommon(all, o.signature, a);
    forall i | 0 <= i < |records|
      ensures AnyServes(records[a], records[i], d, k) <==> MeetsAny(all[i], o.signature)
    {
      AnyServesDecides(records[a], records[i], d, k);
    }
  }

  /** A value is shared exactly when its signature is common. */
  lemma SharedDecides(records: seq<Campaign>, d: Dimension, a: nat, k: nat)
    requires d == RateDimension || d == FeeDimension || d == RewardDimension
    requires AllClean(records, d) && a < |records| && k < Count(records[a], d)
    ensures |OffersOf(records[a], d)| == Count(records[a], d)
    ensures Shared(records, d, a, k) <==> OffersOf(records[a], d)[k].signature in Common(AllOffers(records, d))
  {
    AllOffersProper(records, d);
    CleanOffers(records[a], d);
    CommonIsComplete(AllOffers(records, d), OffersOf(records[a], d)[k].signature);
    if Waiver(records[a], d, k) {
      WaivedSharedDecides(records, a, k);
    } else {
      PricedSharedDecides(records, d, a, k);
    }
  }

  // ----- how many comparisons there are

  predicate Compared(d: Dimension) {
    d == RateDimension || d == FeeDimension || d == RewardDimension
  }

  ghost predicate NoneShared(records: seq<Campaign>, d: Dimension) {
    forall a: nat, k: nat :: a < |records| && k < Count(records[a], d) ==> !Shared(records, d, a, k)
  }

  /** Two values are shared that ask for different comparisons. */
  ghost predicate TwoShared(records: seq<Campaign>, d: Dimension, a: nat, k: nat, b: nat, l: nat) {
    && a < |records| && k < Count(records[a], d) && b < |records| && l < Count(records[b], d)
    && Shared(records, d, a, k) && Shared(records, d, b, l) && !Alike(records[a], records[b], d, k, l)
  }

  lemma SomewhereStated(records: seq<Campaign>, d: Dimension, s: Signature) returns (a: nat, k: nat)
    requires AllClean(records, d) && s in Common(AllOffers(records, d))
    ensures a < |records| && k < Count(records[a], d) && |OffersOf(records[a], d)| == Count(records[a], d)
    ensures OffersOf(records[a], d)[k].signature == s
  {
    var all := AllOffers(records, d);
    var i: nat, o: Offer :| i < |all| && o in all[i] && o.signature == s;
    CleanOffers(records[i], d);
    var l :| 0 <= l < |OffersOf(records[i], d)| && OffersOf(records[i], d)[l] == o;
    a, k := i, l;
  }

  lemma NoneSharedDecides(records: seq<Campaign>, d: Dimension)
    requires Compared(d) && AllClean(records, d)
    ensures NoneShared(records, d) <==> Common(AllOffers(records, d)) == {}
  {
    var common := Common(AllOffers(records, d));
    if NoneShared(records, d) && common != {} {
      var s :| s in common;
      var a, k := SomewhereStated(records, d, s);
      SharedDecides(records, d, a, k);
    }
    if common == {} {
      forall a: nat, k: nat | a < |records| && k < Count(records[a], d)
        ensures !Shared(records, d, a, k)
      {
        SharedDecides(records, d, a, k);
      }
    }
  }

  lemma UnlikeSignatures(records: seq<Campaign>, d: Dimension, a: nat, k: nat, b: nat, l: nat)
    requires Compared(d) && AllClean(records, d) && TwoShared(records, d, a, k, b, l)
    ensures |Common(AllOffers(records, d))| > 1
  {
    SharedDecides(records, d, a, k);
    SharedDecides(records, d, b, l);
    OffersServe(records[a], records[b], d, k, l);
    var s, t := OffersOf(records[a], d)[k].signature, OffersOf(records[b], d)[l].signature;
    TwoMembers(Common(AllOffers(records, d)), s, t);
  }

  lemma TwoMembers(common: set<Signature>, s: Signature, t: Signature)
    requires s in common && t in common && s != t
    ensures |common| > 1
  {
    assert |common - {s}| == |common| - 1;
    assert t in common - {s};
  }

  /** A record serves the shared value more than once. */
  predicate ServesTwice(r: Campaign, q: Campaign, d: Dimension, k: nat)
    requires k < Count(r, d)
  {
    exists l: nat, m: nat :: l < m < Count(q, d) && Serves(r, q, d, k, l) && Serves(r, q, d, k, m)
  }

  lemma {:induction false} MatchesAscend(offers: seq<Offer>, s: Signature)
    ensures forall i, j :: 0 <= i < j < |MatchIndices(offers, s)| ==> MatchIndices(offers, s)[i] < MatchIndices(offers, s)[j]
  {
    if offers != [] {
      MatchesAscend(offers[..|offers| - 1], s);
      var before := MatchIndices(offers[..|offers| - 1], s);
      forall i | 0 <= i < |before|
        ensures before[i] < |offers| - 1
      {
        assert before[i] in before;
      }
    }
  }

  predicate TwoIn(found: seq<nat>) {
    exists l, m :: l in found && m in found && l < m
  }

  lemma OneOrTwo(found: seq<nat>)
    requires found != [] && forall i, j :: 0 <= i < j < |found| ==> found[i] < found[j]
    ensures |found| == 1 <==> !TwoIn(found)
  {
    if |found| > 1 {
      assert found[0] in found && found[1] in found;
    }
  }

  lemma MatchesServe(r: Campaign, q: Campaign, d: Dimension, k: nat, l: nat)
    requires Compared(d) && Clean(r, d) && Clean(q, d) && k < Count(r, d)
    ensures |OffersOf(r, d)| == Count(r, d)
    ensures l in MatchIndices(OffersOf(q, d), OffersOf(r, d)[k].signature) <==> l < Count(q, d) && Serves(r, q, d, k, l)
  {
    CleanOffers(r, d);
    CleanOffers(q, d);
    if l < Count(q, d) {
      OffersServe(r, q, d, k, l);
    }
  }

  lemma ServesOnceDecides(r: Campaign, q: Campaign, d: Dimension, k: nat)
    requires Compared(d) && Clean(r, d) && Clean(q, d) && k < Count(r, d) && AnyServes(r, q, d, k)
    ensures |OffersOf(r, d)| == Count(r, d)
    ensures MeetsSignatureOnce(q, d, OffersOf(r, d)[k].signature) <==> !ServesTwice(r, q, d, k)
  {
    CleanOffers(r, d);
    var found := MatchIndices(OffersOf(q, d), OffersOf(r, d)[k].signature);
    MatchesAscend(OffersOf(q, d), OffersOf(r, d)[k].signature);
    forall l: nat
      ensures l in found <==> l < Count(q, d) && Serves(r, q, d, k, l)
    {
      MatchesServe(r, q, d, k, l);
    }
    var l: nat :| l < Count(q, d) && Serves(r, q, d, k, l);
    assert l in found;
    OneOrTwo(found);
    TwiceInFound(r, q, d, k, found);
  }

  lemma TwiceInFound(r: Campaign, q: Campaign, d: Dimension, k: nat, found: seq<nat>)
    requires k < Count(r, d)
    requires forall l: nat :: l in found <==> l < Count(q, d) && Serves(r, q, d, k, l)
    ensures TwoIn(found) <==> ServesTwice(r, q, d, k)
  {
    if TwoIn(found) {
      var l, m :| l in found && m in found && l < m;
      assert Serves(r, q, d, k, l) && Serves(r, q, d, k, m);
    }
    if ServesTwice(r, q, d, k) {
      var l: nat, m: nat :| l < m < Count(q, d) && Serves(r, q, d, k, l) && Serves(r, q, d, k, m);
      assert l in found && m in found;
    }
  }

  // ----- evidence

  /** The record has evidence whose pointer starts with the path, with "/data" in front or without. */
  predicate Evidenced(r: Campaign, path: string) {
    exists e :: e in r.evidence && ("/data" + path <= e.pointer || path <= e.pointer)
  }

  lemma EvidencedDecides(r: Campaign, path: string)
    ensures EvidenceIds(r, path) != [] <==> Evidenced(r, path)
  {
    SupportingNonempty(r.evidence, path);
    assert |EvidenceIds(r, path)| == |SupportingIds(r.evidence, path)|;
    if Evidenced(r, path) {
      var e :| e in r.evidence && ("/data" + path <= e.pointer || path <= e.pointer);
      assert Supports(e, path);
    }
    if e :| e in r.evidence && Supports(e, path) {
      assert Evidenced(r, path);
    }
  }

  /** Where the evidence of a value stands. */
  function PathOf(d: Dimension, l: nat): string {
    match d
    case RateDimension => "/rates/" + Numeral(l)
    case FeeDimension => "/fees/" + Numeral(l)
    case RewardDimension => "/rewards/" + Numeral(l)
    case TermDimension => "/terms"
    case Eligibility => "/comparison_context"
  }

  lemma PathDecides(d: Dimension, l: nat)
    ensures Compared(d) ==> Tail(d) + "/" + Numeral(l) == PathOf(d, l)
    ensures !Compared(d) ==> Tail(d) == PathOf(d, l)
  {
    UnderRates(l);
    UnderFees(l);
    UnderRewards(l);
  }

  // ----- the reasons

  /** The words of a dimension: for a record that states nothing and its peers, for several comparisons,
      for several values under one, and for a record without evidence and its peers. */
  datatype Words = Words(missing: Reason, peer: Reason, many: Reason, twice: Reason, unproven: Reason, peerUnproven: Reason)

  function WordsOf(d: Dimension): Words {
    match d
    case RateDimension =>
      Words(RateMissing, PeerRateMissing, MultipleRateSignatures, MultipleRateValuesForSignature,
            RateEvidenceMissing, PeerRateEvidenceMissing)
    case FeeDimension =>
      Words(FeeMissing, PeerFeeMissing, MultipleFeeSignatures, MultipleFeeSignatures, FeeEvidenceMissing, PeerFeeEvidenceMissing)
    case RewardDimension =>
      Words(RewardMissing, PeerRewardMissing, MultipleRewardSignatures, MultipleRewardSignatures,
            RewardEvidenceMissing, PeerRewardEvidenceMissing)
    case TermDimension =>
      Words(TermMissing, PeerTermMissing, TermAmbiguous, TermAmbiguous, TermEvidenceMissing, PeerTermEvidenceMissing)
    case Eligibility =>
      Words(EligibilityEvidenceMissing, PeerEligibilityEvidenceMissing, EligibilityEvidenceMissing, EligibilityEvidenceMissing,
            EligibilityEvidenceMissing, PeerEligibilityEvidenceMissing)
  }

  // Which features a record states some value with.

  predicate HasRate(r: Campaign, kind: RateKind, period: Option<RatePeriod>) {
    exists a :: a in r.rates && a.kind == kind && (period.None? || a.period == period.value)
  }

  predicate HasFee(r: Campaign, kind: FeeKind, basis: Option<FeeBasis>, money: Option<bool>) {
    exists f :: f in r.fees && f.kind == kind && (basis.None? || f.basis == basis.value)
                && (money.None? || f.waived || f.money.Some? == money.value)
  }

  predicate HasReward(r: Campaign, kind: RewardKind, basis: Option<RewardBasis>, program: Option<string>) {
    exists w :: w in r.rewards && w.kind == kind && (basis.None? || w.basis == basis.value)
                && (program.None? || Text(w.programName) == program.value)
  }

  predicate AllHaveRate(records: seq<Campaign>, kind: RateKind, period: Option<RatePeriod>) {
    forall r :: r in records ==> HasRate(r, kind, period)
  }

  predicate AllHaveFee(records: seq<Campaign>, kind: FeeKind, basis: Option<FeeBasis>, money: Option<bool>) {
    forall r :: r in records ==> HasFee(r, kind, basis, money)
  }

  predicate AllHaveReward(records: seq<Campaign>, kind: RewardKind, basis: Option<RewardBasis>, program: Option<string>) {
    forall r :: r in records ==> HasReward(r, kind, basis, program)
  }

  ghost predicate OneRateKind(records: seq<Campaign>) {
    exists kind :: AllHaveRate(records, kind, None)
  }

  ghost predicate OneRatePeriod(records: seq<Campaign>) {
    exists kind, period :: AllHaveRate(records, kind, Some(period))
  }

  ghost predicate OneFeeKind(records: seq<Campaign>) {
    exists kind :: AllHaveFee(records, kind, None, None)
  }

  ghost predicate OneFeeBasis(records: seq<Campaign>) {
    exists kind, basis :: AllHaveFee(records, kind, Some(basis), None)
  }

  ghost predicate OneFeeMode(records: seq<Campaign>) {
    exists kind, basis, money :: AllHaveFee(records, kind, Some(basis), Some(money))
  }

  ghost predicate OneRewardKind(records: seq<Campaign>) {
    exists kind :: AllHaveReward(records, kind, None, None)
  }

  ghost predicate OneRewardBasis(records: seq<Campaign>) {
    exists kind, basis :: AllHaveReward(records, kind, Some(basis), None)
  }

  ghost predicate OneRewardProgram(records: seq<Campaign>) {
    exists kind, program :: AllHaveReward(records, kind, None, Some(program))
  }

  /** Why no value is shared: the first feature that no one value has in common over all records. */
  ghost function NothingShared(records: seq<Campaign>, d: Dimension): Reason {
    match d
    case FeeDimension =>
      if !OneFeeKind(records) then FeeKindMismatch
      else if !OneFeeBasis(records) then FeeBasisMismatch
      else if !OneFeeMode(records) then FeeValueTypeMismatch
      else FeeCurrencyMismatch
    case RewardDimension =>
      if !OneRewardKind(records) then RewardKindMismatch
      else if !OneRewardBasis(records) then RewardBasisMismatch
      else if !OneRewardProgram(records) then RewardProgramMismatch
      else RewardContextMismatch
    case _ =>
      if !OneRateKind(records) then RateKindMismatch
      else if !OneRatePeriod(records) then RatePeriodMismatch
      else RateBasisMismatch
  }

  lemma RateKindShared(records: seq<Campaign>)
    requires records != []
    ensures SharesRateKind(records) <==> OneRateKind(records)
  {
    forall a: Rate
      ensures (forall r :: r in records ==> exists b :: b in r.rates && b.kind == a.kind)
          <==> AllHaveRate(records, a.kind, None)
    {
    }
    if kind :| AllHaveRate(records, kind, None) {
      assert HasRate(records[0], kind, None);
    }
  }

  lemma RatePeriodShared(records: seq<Campaign>)
    requires records != []
    ensures SharesRatePeriod(records) <==> OneRatePeriod(records)
  {
    forall a: Rate
      ensures (forall r :: r in records ==> exists b :: b in r.rates && b.kind == a.kind && b.period == a.period)
          <==> AllHaveRate(records, a.kind, Some(a.period))
    {
    }
    if kind, period :| AllHaveRate(records, kind, Some(period)) {
      assert HasRate(records[0], kind, Some(period));
    }
  }

  lemma FeeKindShared(records: seq<Campaign>)
    requires records != []
    ensures SharesFeeKind(records) <==> OneFeeKind(records)
  {
    forall a: Fee
      ensures (forall r :: r in records ==> exists b :: b in r.fees && b.kind == a.kind)
          <==> AllHaveFee(records, a.kind, None, None)
    {
    }
    if kind :| AllHaveFee(records, kind, None, None) {
      assert HasFee(records[0], kind, None, None);
    }
  }

  lemma FeeBasisShared(records: seq<Campaign>)
    requires records != []
    ensures SharesFeeBasis(records) <==> OneFeeBasis(records)
  {
    forall a: Fee
      ensures (forall r :: r in records ==> exists b :: b in r.fees && b.kind == a.kind && b.basis == a.basis)
          <==> AllHaveFee(records, a.kind, Some(a.basis), None)
    {
    }
    if kind, basis :| AllHaveFee(records, kind, Some(basis), None) {
      assert HasFee(records[0], kind, Some(basis), None);
    }
  }

  lemma FeeModeOf(r: Campaign, a: Fee, m: bool)
    ensures (exists b :: b in r.fees && b.kind == a.kind && b.basis == a.basis && HasMode(b, m))
        <==> HasFee(r, a.kind, Some(a.basis), Some(m))
  {
  }

  lemma FeeModeOfAll(records: seq<Campaign>, a: Fee, m: bool)
    ensures (forall r :: r in records ==> exists b :: b in r.fees && b.kind == a.kind && b.basis == a.basis && HasMode(b, m))
        <==> AllHaveFee(records, a.kind, Some(a.basis), Some(m))
  {
    forall r: Campaign
      ensures (exists b :: b in r.fees && b.kind == a.kind && b.basis == a.basis && HasMode(b, m))
          <==> HasFee(r, a.kind, Some(a.basis), Some(m))
    {
      FeeModeOf(r, a, m);
    }
  }

  lemma FeeModeStated(records: seq<Campaign>, kind: FeeKind, basis: FeeBasis, m: bool) returns (a: Fee)
    requires records != [] && AllHaveFee(records, kind, Some(basis), Some(m))
    ensures a in records[0].fees && a.kind == kind && a.basis == basis && HasMode(a, m)
  {
    assert HasFee(records[0], kind, Some(basis), Some(m));
    a :| a in records[0].fees && a.kind == kind && a.basis == basis && (a.waived || a.money.Some? == m);
  }

  lemma FeeModeShared(records: seq<Campaign>)
    requires records != []
    ensures SharesFeeMode(records) <==> OneFeeMode(records)
  {
    if kind, basis, money :| AllHaveFee(records, kind, Some(basis), Some(money)) {
      var a := FeeModeStated(records, kind, basis, money);
      FeeModeOfAll(records, a, money);
      assert a in records[0].fees && HasMode(a, money);
    }
    if SharesFeeMode(records) {
      var a: Fee, m: bool :| a in records[0].fees && HasMode(a, m) && forall r :: r in records ==>
        exists b :: b in r.fees && b.kind == a.kind && b.basis == a.basis && HasMode(b, m);
      FeeModeOfAll(records, a, m);
    }
  }

  lemma RewardKindShared(records: seq<Campaign>)
    requires records != []
    ensures SharesRewardKind(records) <==> OneRewardKind(records)
  {
    forall a: Reward
      ensures (forall r :: r in records ==> exists b :: b in r.rewards && b.kind == a.kind)
          <==> AllHaveReward(records, a.kind, None, None)
    {
    }
    if kind :| AllHaveReward(records, kind, None, None) {
      assert HasReward(records[0], kind, None, None);
    }
  }

  lemma RewardBasisShared(records: seq<Campaign>)
    requires records != []
    ensures SharesRewardBasis(records) <==> OneRewardBasis(records)
  {
    forall a: Reward
      ensures (forall r :: r in records ==> exists b :: b in r.rewards && b.kind == a.kind && b.basis == a.basis)
          <==> AllHaveReward(records, a.kind, Some(a.basis), None)
    {
    }
    if kind, basis :| AllHaveReward(records, kind, Some(basis), None) {
      assert HasReward(records[0], kind, Some(basis), None);
    }
  }

  lemma RewardProgramShared(records: seq<Campaign>)
    requires records != []
    ensures SharesRewardProgram(records) <==> OneRewardProgram(records)
  {
    forall a: Reward
      ensures (forall r :: r in records ==> exists b :: b in r.rewards && b.kind == a.kind && Label(b.programName) == Label(a.programName))
          <==> AllHaveReward(records, a.kind, None, Some(Text(a.programName)))
    {
    }
    if kind, program :| AllHaveReward(records, kind, None, Some(program)) {
      assert HasReward(records[0], kind, None, Some(program));
    }
  }

  lemma RateMismatchDecides(records: seq<Campaign>)
    requires records != []
    ensures RateMismatch(records) == NothingShared(records, RateDimension)
  {
    RateKindShared(records);
    RatePeriodShared(records);
  }

  lemma FeeMismatchDecides(records: seq<Campaign>)
    requires records != []
    ensures FeeMismatch(records) == NothingShared(records, FeeDimension)
  {
    FeeKindShared(records);
    FeeBasisShared(records);
    FeeModeShared(records);
  }

  lemma RewardMismatchDecides(records: seq<Campaign>)
    requires records != []
    ensures RewardMismatch(records) == NothingShared(records, RewardDimension)
  {
    RewardKindShared(records);
    RewardBasisShared(records);
    RewardProgramShared(records);
  }

  lemma MismatchDecides(records: seq<Campaign>, d: Dimension)
    requires records != [] && Compared(d)
    ensures MismatchReason(records, d) == NothingShared(records, d)
  {
    match d
    case RateDimension => RateMismatchDecides(records);
    case FeeDimension => FeeMismatchDecides(records);
    case RewardDimension => RewardMismatchDecides(records);
  }

  // ----- refusals

  predicate RefusedFor(o: Outcome, r: Campaign, d: Dimension, reason: Reason) {
    && o.campaign == r.id && o.dimension == d && !o.comparable && o.reason == reason
    && o.rank.None? && o.value.None? && o.unit.None? && o.evidence == []
  }

  lemma RefusedAs(records: seq<Campaign>, d: Dimension, rejection: Rejection, i: nat)
    requires records != [] && d != Eligibility && i < |records| && Select(records, d) == Failure(rejection)
    ensures |DimensionOutcomes(records, d)| == |records|
    ensures RefusedFor(DimensionOutcomes(records, d)[i], records[i], d,
                       match rejection
                       case ForAll(reason) => reason
                       case ForOwnAndPeers(affected, own, peer) => if records[i].id in affected then own else peer)
  {
  }

  lemma RefusedByIds(records: seq<Campaign>, d: Dimension, ids: set<string>, own: Reason, peer: Reason, i: nat)
    requires records != [] && d != Eligibility && i < |records|
    requires Select(records, d) == Failure(ForOwnAndPeers(ids, own, peer))
    ensures |DimensionOutcomes(records, d)| == |records|
    ensures RefusedFor(DimensionOutcomes(records, d)[i], records[i], d, if records[i].id in ids then own else peer)
  {
    RefusedAs(records, d, ForOwnAndPeers(ids, own, peer), i);
  }

  lemma WithoutDecides(records: seq<Campaign>, d: Dimension)
    ensures Without(records, d) == {} <==> forall q :: q in records ==> Count(q, d) > 0
    ensures forall id :: id in Without(records, d) <==> exists q :: q in records && q.id == id && Count(q, d) == 0
  {
    forall q
      ensures Lacks(q, d) <==> Count(q, d) == 0
    {
      CountsEntries(q, d);
    }
    if Without(records, d) == {} {
      NoneWithout(records, d);
    }
  }

  lemma WordsDecide(d: Dimension)
    requires d != Eligibility
    ensures MissingReason(d) == WordsOf(d).missing && PeerMissingReason(d) == WordsOf(d).peer
    ensures EvidenceMissingReason(d) == WordsOf(d).unproven && PeerEvidenceMissingReason(d) == WordsOf(d).peerUnproven
    ensures Compared(d) ==> ManySignatures(d) == WordsOf(d).many && ManyValues(d) == WordsOf(d).twice
  {
  }

  /** When some record states nothing in the dimension, every record is refused: the ones without for
      that, and the others because a peer lacks it. */
  lemma MissingRefuses(records: seq<Campaign>, d: Dimension, i: nat, q: Campaign)
    requires d != Eligibility && i < |records| && q in records && Count(q, d) == 0
    ensures |DimensionOutcomes(records, d)| == |records|
    ensures RefusedFor(DimensionOutcomes(records, d)[i], records[i], d,
                       if exists p :: p in records && p.id == records[i].id && Count(p, d) == 0
                       then WordsOf(d).missing else WordsOf(d).peer)
  {
    WithoutDecides(records, d);
    WordsDecide(d);
    assert q.id in Without(records, d);
    RefusedAs(records, d, ForOwnAndPeers(Without(records, d), MissingReason(d), PeerMissingReason(d)), i);
  }

  /** Otherwise the first value that cannot be compared, in record and value order, refuses every record. */
  lemma TroubleRefuses(records: seq<Campaign>, d: Dimension, i: nat, a: nat, b: nat, reason: Reason)
    requires d != Eligibility && i < |records| && forall q :: q in records ==> Count(q, d) > 0
    requires FirstTrouble(records, d, a, b, reason)
    ensures |DimensionOutcomes(records, d)| == |records|
    ensures RefusedFor(DimensionOutcomes(records, d)[i], records[i], d, reason)
  {
    WithoutDecides(records, d);
    FirstIsUnique(records, d, a, b, reason);
    RefusedAs(records, d, ForAll(reason), i);
  }

  lemma FirstIsUnique(records: seq<Campaign>, d: Dimension, a: nat, b: nat, reason: Reason)
    requires FirstTrouble(records, d, a, b, reason)
    ensures FirstIssue(records, d) == Some(reason)
  {
    var x, y := FirstIssueAt(records, d);
    assert TroubleAt(records, d, a, b);
    if !(x == a && y == b) {
      assert Before(x, y, a, b) || Before(a, b, x, y);
      assert TroubleAt(records, d, x, y);
    }
  }

  lemma CleanIsUntroubled(records: seq<Campaign>, d: Dimension)
    requires AllClean(records, d)
    ensures FirstIssue(records, d).None?
  {
    var x, y := FirstIssueAt(records, d);
  }

  /** A comparison is open: every record states something, and nothing that cannot be compared. */
  ghost predicate OpenTo(records: seq<Campaign>, d: Dimension) {
    && Compared(d) && records != [] && AllClean(records, d)
    && forall q :: q in records ==> Count(q, d) > 0
  }

  lemma OpenSelects(records: seq<Campaign>, d: Dimension)
    requires OpenTo(records, d)
    ensures Select(records, d) == SelectCommon(records, d)
  {
    WithoutDecides(records, d);
    CleanIsUntroubled(records, d);
  }

  /** With no value shared by all records, the first feature they do not share refuses every record. */
  lemma NothingSharedRefuses(records: seq<Campaign>, d: Dimension, i: nat)
    requires OpenTo(records, d) && i < |records| && NoneShared(records, d)
    ensures |DimensionOutcomes(records, d)| == |records|
    ensures RefusedFor(DimensionOutcomes(records, d)[i], records[i], d, NothingShared(records, d))
  {
    OpenSelects(records, d);
    NoneSharedDecides(records, d);
    MismatchDecides(records, d);
    RefusedAs(records, d, ForAll(MismatchReason(records, d)), i);
  }

  /** With two shared values that ask for different comparisons, so does that. */
  lemma TwoSharedRefuse(records: seq<Campaign>, d: Dimension, i: nat, a: nat, k: nat, b: nat, l: nat)
    requires OpenTo(records, d) && i < |records| && TwoShared(records, d, a, k, b, l)
    ensures |DimensionOutcomes(records, d)| == |records|
    ensures RefusedFor(DimensionOutcomes(records, d)[i], records[i], d, WordsOf(d).many)
  {
    OpenSelects(records, d);
    UnlikeSignatures(records, d, a, k, b, l);
    WordsDecide(d);
    RefusedAs(records, d, ForAll(ManySignatures(d)), i);
  }

  /** All shared values ask for the same comparison as this one. */
  ghost predicate OneShared(records: seq<Campaign>, d: Dimension, a: nat, k: nat) {
    && a < |records| && k < Count(records[a], d) && Shared(records, d, a, k)
    && forall b: nat, l: nat :: !TwoShared(records, d, a, k, b, l)
  }

  lemma OneSharedDecides(records: seq<Campaign>, d: Dimension, a: nat, k: nat)
    requires Compared(d) && AllClean(records, d) && OneShared(records, d, a, k)
    ensures |OffersOf(records[a], d)| == Count(records[a], d)
    ensures Common(AllOffers(records, d)) == {OffersOf(records[a], d)[k].signature}
  {
    SharedDecides(records, d, a, k);
    var s, common := OffersOf(records[a], d)[k].signature, Common(AllOffers(records, d));
    forall t | t in common
      ensures t == s
    {
      var b, l := SomewhereStated(records, d, t);
      SharedDecides(records, d, b, l);
      OffersServe(records[a], records[b], d, k, l);
      assert !TwoShared(records, d, a, k, b, l);
    }
  }

  lemma OneSharedSelects(records: seq<Campaign>, d: Dimension, a: nat, k: nat)
    requires OpenTo(records, d) && OneShared(records, d, a, k)
    ensures |OffersOf(records[a], d)| == Count(records[a], d)
    ensures var s := OffersOf(records[a], d)[k].signature;
            Select(records, d)
            == if !MeetsOnce(records, d, s) then Failure(ForAll(WordsOf(d).twice))
               else Proven(records, d, HigherIsBetter(d, s), Choices(records, d, s))
  {
    OpenSelects(records, d);
    OneSharedDecides(records, d, a, k);
    WordsDecide(d);
    var common := Common(AllOffers(records, d));
    assert TheOne(common) == OffersOf(records[a], d)[k].signature by {
      assert TheOne(common) in common;
    }
  }

  /** With one shared value, a record that serves it more than once refuses every record. */
  lemma TwiceServedRefuses(records: seq<Campaign>, d: Dimension, i: nat, a: nat, k: nat, j: nat)
    requires OpenTo(records, d) && i < |records| && OneShared(records, d, a, k)
    requires j < |records| && ServesTwice(records[a], records[j], d, k)
    ensures |DimensionOutcomes(records, d)| == |records|
    ensures RefusedFor(DimensionOutcomes(records, d)[i], records[i], d, WordsOf(d).twice)
  {
    OneSharedSelects(records, d, a, k);
    ServesOnceDecides(records[a], records[j], d, k);
    RefusedAs(records, d, ForAll(WordsOf(d).twice), i);
  }

  /** The record serves the shared value with one that has no evidence. */
  predicate Unproved(r: Campaign, q: Campaign, d: Dimension, k: nat)
    requires k < Count(r, d)
  {
    exists l: nat :: l < Count(q, d) && Serves(r, q, d, k, l) && !Evidenced(q, PathOf(d, l))
  }

  ghost predicate AllServeOnce(records: seq<Campaign>, d: Dimension, a: nat, k: nat)
    requires a < |records| && k < Count(records[a], d)
  {
    forall j :: 0 <= j < |records| ==> AnyServes(records[a], records[j], d, k) && !ServesTwice(records[a], records[j], d, k)
  }

  lemma ChoiceProved(r: Campaign, q: Campaign, d: Dimension, k: nat)
    requires Compared(d) && Clean(r, d) && Clean(q, d) && k < Count(r, d)
    requires AnyServes(r, q, d, k) && !ServesTwice(r, q, d, k)
    ensures |OffersOf(r, d)| == Count(r, d) && MeetsSignatureOnce(q, d, OffersOf(r, d)[k].signature)
    ensures Choice(q, d, OffersOf(r, d)[k].signature).evidence == [] <==> Unproved(r, q, d, k)
  {
    ServesOnceDecides(r, q, d, k);
    var s := OffersOf(r, d)[k].signature;
    var found := MatchIndices(OffersOf(q, d), s);
    var l := found[0];
    assert l in found;
    MatchesServe(r, q, d, k, l);
    ChoiceEvidence(q, d, s);
    PathDecides(d, l);
    EvidencedDecides(q, PathOf(d, l));
    forall m: nat | m < Count(q, d) && Serves(r, q, d, k, m)
      ensures m == l
    {
      MatchesServe(r, q, d, k, m);
    }
  }

  lemma ServedOnce(records: seq<Campaign>, d: Dimension, a: nat, k: nat)
    requires OpenTo(records, d) && OneShared(records, d, a, k) && AllServeOnce(records, d, a, k)
    ensures |OffersOf(records[a], d)| == Count(records[a], d)
    ensures MeetsOnce(records, d, OffersOf(records[a], d)[k].signature)
    ensures var chosen := Choices(records, d, OffersOf(records[a], d)[k].signature);
            && Select(records, d) == Proven(records, d, HigherIsBetter(d, OffersOf(records[a], d)[k].signature), chosen)
            && forall j :: 0 <= j < |records| ==> (chosen[j].evidence == [] <==> Unproved(records[a], records[j], d, k))
  {
    OneSharedSelects(records, d, a, k);
    forall j | 0 <= j < |records|
      ensures MeetsSignatureOnce(records[j], d, OffersOf(records[a], d)[k].signature)
      ensures Choice(records[j], d, OffersOf(records[a], d)[k].signature).evidence == [] <==> Unproved(records[a], records[j], d, k)
    {
      ChoiceProved(records[a], records[j], d, k);
    }
  }

  lemma UnprovenIds(records: seq<Campaign>, chosen: seq<Chosen>, fault: Campaign -> bool)
    requires |records| == |chosen| && forall j :: 0 <= j < |records| ==> (chosen[j].evidence == [] <==> fault(records[j]))
    ensures forall id :: id in Unproven(records, chosen) <==> exists q :: q in records && q.id == id && fault(q)
  {
    forall id
      ensures id in Unproven(records, chosen) <==> exists q :: q in records && q.id == id && fault(q)
    {
      if id in Unproven(records, chosen) {
        var j :| 0 <= j < |records| && chosen[j].evidence == [] && records[j].id == id;
        assert records[j] in records && fault(records[j]);
      }
      if q :| q in records && q.id == id && fault(q) {
        var j :| 0 <= j < |records| && records[j] == q;
        assert chosen[j].evidence == [];
      }
    }
  }

  lemma UnprovedSelects(records: seq<Campaign>, d: Dimension, a: nat, k: nat, j: nat) returns (ids: set<string>)
    requires OpenTo(records, d) && OneShared(records, d, a, k) && AllServeOnce(records, d, a, k)
    requires j < |records| && Unproved(records[a], records[j], d, k)
    ensures Select(records, d) == Failure(ForOwnAndPeers(ids, WordsOf(d).unproven, WordsOf(d).peerUnproven))
    ensures forall id :: id in ids <==> exists q :: q in records && q.id == id && Unproved(records[a], q, d, k)
  {
    ServedOnce(records, d, a, k);
    WordsDecide(d);
    var chosen := Choices(records, d, OffersOf(records[a], d)[k].signature);
    ids := Unproven(records, chosen);
    UnprovenIds(records, chosen, q => Unproved(records[a], q, d, k));
    UnprovenHas(records, chosen, j);
  }

  /** With one shared value that every record serves once, a value without evidence refuses every record:
      the ones without for that, and the others because a peer lacks it. */
  lemma UnprovenRefuses(records: seq<Campaign>, d: Dimension, i: nat, a: nat, k: nat, j: nat)
    requires OpenTo(records, d) && i < |records| && OneShared(records, d, a, k) && AllServeOnce(records, d, a, k)
    requires j < |records| && Unproved(records[a], records[j], d, k)
    ensures |DimensionOutcomes(records, d)| == |records|
    ensures RefusedFor(DimensionOutcomes(records, d)[i], records[i], d,
                       if exists q :: q in records && q.id == records[i].id && Unproved(records[a], q, d, k)
                       then WordsOf(d).unproven else WordsOf(d).peerUnproven)
  {
    var ids := UnprovedSelects(records, d, a, k, j);
    RefusedByIds(records, d, ids, WordsOf(d).unproven, WordsOf(d).peerUnproven, i);
  }

  /** And with evidence for all of them, every record is ranked. */
  lemma ProvedRanks(records: seq<Campaign>, d: Dimension, a: nat, k: nat)
    requires OpenTo(records, d) && OneShared(records, d, a, k) && AllServeOnce(records, d, a, k)
    requires forall j :: 0 <= j < |records| ==> !Unproved(records[a], records[j], d, k)
    ensures Select(records, d).Success?
  {
    ServedOnce(records, d, a, k);
    var chosen := Choices(records, d, OffersOf(records[a], d)[k].signature);
    assert Unproven(records, chosen) == {};
  }

  /** The one comparison the records are open to: one shared value, served once by every record, with
      evidence. */
  ghost predicate Comparable(records: seq<Campaign>, d: Dimension, a: nat, k: nat) {
    && OneShared(records, d, a, k) && AllServeOnce(records, d, a, k)
    && forall j :: 0 <= j < |records| ==> !Unproved(records[a], records[j], d, k)
  }

  lemma ComparableIsRanked(records: seq<Campaign>, d: Dimension, a: nat, k: nat)
    requires OpenTo(records, d)
    ensures Comparable(records, d, a, k) ==> Select(records, d).Success?
  {
    if Comparable(records, d, a, k) {
      ProvedRanks(records, d, a, k);
    }
  }

  lemma SharedIsServed(records: seq<Campaign>, d: Dimension, a: nat, k: nat)
    requires OneShared(records, d, a, k)
    ensures AllServeOnce(records, d, a, k) <==> forall j :: 0 <= j < |records| ==> !ServesTwice(records[a], records[j], d, k)
  {
  }

  lemma RankedIsComparable(records: seq<Campaign>, d: Dimension) returns (a: nat, k: nat)
    requires OpenTo(records, d) && Select(records, d).Success?
    ensures Comparable(records, d, a, k)
  {
    OpenSelects(records, d);
    var common := Common(AllOffers(records, d));
    a, k := SomewhereStated(records, d, TheOne(common));
    SharedDecides(records, d, a, k);
    forall b: nat, l: nat
      ensures !TwoShared(records, d, a, k, b, l)
    {
      if TwoShared(records, d, a, k, b, l) {
        UnlikeSignatures(records, d, a, k, b, l);
      }
    }
    RankedServesOnce(records, d, a, k);
  }

  lemma RankedServesOnce(records: seq<Campaign>, d: Dimension, a: nat, k: nat)
    requires OpenTo(records, d) && Select(records, d).Success? && OneShared(records, d, a, k)
    ensures Comparable(records, d, a, k)
  {
    OneSharedSelects(records, d, a, k);
    forall j | 0 <= j < |records|
      ensures !ServesTwice(records[a], records[j], d, k)
    {
      ServesOnceDecides(records[a], records[j], d, k);
    }
    SharedIsServed(records, d, a, k);
    ServedOnce(records, d, a, k);
    var chosen := Choices(records, d, OffersOf(records[a], d)[k].signature);
    forall j | 0 <= j < |records|
      ensures !Unproved(records[a], records[j], d, k)
    {
      UnprovenHas(records, chosen, j);
    }
  }

  /** A rate, fee or reward comparison ranks its records if and only if every record states something,
      nothing stated is unfit to be compared, and there is exactly one comparison that a value of every
      record serves, each with exactly one value, and with evidence for it. */
  lemma RankedExactly(records: seq<Campaign>, d: Dimension)
    requires Compared(d) && records != []
    ensures Select(records, d).Success? <==>
              && (forall q :: q in records ==> Count(q, d) > 0)
              && AllClean(records, d)
              && exists a, k :: Comparable(records, d, a, k)
  {
    WithoutDecides(records, d);
    var x, y := FirstIssueAt(records, d);
    if FirstIssue(records, d).Some? {
      assert TroubleAt(records, d, x, y);
    } else {
      UntroubledIsClean(records, d);
    }
    if OpenTo(records, d) {
      if Select(records, d).Success? {
        var a, k := RankedIsComparable(records, d);
      }
      forall a: nat, k: nat
        ensures Comparable(records, d, a, k) ==> Select(records, d).Success?
      {
        ComparableIsRanked(records, d, a, k);
      }
    }
  }

  lemma UntroubledIsClean(records: seq<Campaign>, d: Dimension)
    ensures Untroubled(records, d) <==> AllClean(records, d)
  {
    if Untroubled(records, d) {
      forall i, y | 0 <= i < |records| && 0 <= y < Count(records[i], d)
        ensures Trouble(records[i], d, y).None?
      {
        assert !TroubleAt(records, d, i, y);
      }
    }
  }

  // ----- terms and eligibility

  lemma TermsSelect(records: seq<Campaign>)
    requires records != [] && AllClean(records, TermDimension) && forall q :: q in records ==> Count(q, TermDimension) > 0
    ensures forall r :: r in records ==> r.terms != []
    ensures Select(records, TermDimension) == Proven(records, TermDimension, true, LongestTerms(records))
    ensures forall j :: 0 <= j < |records| ==> (LongestTerms(records)[j].evidence == [] <==> !Evidenced(records[j], "/terms"))
  {
    AllHaveTerms(records);
    CleanIsUntroubled(records, TermDimension);
    var chosen := LongestTerms(records);
    assert Select(records, TermDimension) == Proven(records, TermDimension, true, chosen);
    forall j | 0 <= j < |records|
      ensures chosen[j].evidence == [] <==> !Evidenced(records[j], "/terms")
    {
      TermEvidenced(records[j]);
    }
  }

  lemma AllHaveTerms(records: seq<Campaign>)
    requires forall q :: q in records ==> Count(q, TermDimension) > 0
    ensures Without(records, TermDimension) == {}
    ensures forall r :: r in records ==> r.terms != []
  {
    WithoutDecides(records, TermDimension);
    forall r | r in records
      ensures r.terms != []
    {
      assert Count(r, TermDimension) > 0;
    }
  }

  lemma TermEvidenced(r: Campaign)
    requires r.terms != []
    ensures LongestTerm(r).evidence == [] <==> !Evidenced(r, "/terms")
  {
    EvidencedDecides(r, "/terms");
    assert LongestTerm(r).evidence == EvidenceIds(r, "/terms");
  }

  /** A term comparison ranks its records if and only if every record states terms, none of them unclear,
      and has evidence for its terms. */
  lemma TermsRankedExactly(records: seq<Campaign>)
    requires records != []
    ensures Select(records, TermDimension).Success? <==>
              forall r :: r in records ==>
                && r.terms != [] && (forall t :: t in r.terms ==> t.status != Unknown && t.status != Ambiguous)
                && Evidenced(r, "/terms")
  {
    TermsClean(records);
    WithoutDecides(records, TermDimension);
    var x, y := FirstIssueAt(records, TermDimension);
    if FirstIssue(records, TermDimension).Some? {
      assert TroubleAt(records, TermDimension, x, y);
    } else {
      UntroubledIsClean(records, TermDimension);
    }
    if AllClean(records, TermDimension) && forall q :: q in records ==> Count(q, TermDimension) > 0 {
      TermsSelect(records);
      TermsProven(records, LongestTerms(records));
    }
  }

  lemma TermsProven(records: seq<Campaign>, chosen: seq<Chosen>)
    requires |records| == |chosen|
    requires forall j :: 0 <= j < |records| ==> (chosen[j].evidence == [] <==> !Evidenced(records[j], "/terms"))
    ensures Unproven(records, chosen) == {} <==> forall r :: r in records ==> Evidenced(r, "/terms")
  {
    UnprovenIds(records, chosen, q => !Evidenced(q, "/terms"));
    forall r | r in records && !Evidenced(r, "/terms")
      ensures r.id in Unproven(records, chosen)
    {
    }
  }

  lemma TermsClean(records: seq<Campaign>)
    ensures AllClean(records, TermDimension) <==>
              forall r :: r in records ==> forall t :: t in r.terms ==> t.status != Unknown && t.status != Ambiguous
  {
    forall r: Campaign
      ensures Clean(r, TermDimension) <==> forall t :: t in r.terms ==> t.status != Unknown && t.status != Ambiguous
    {
      if Clean(r, TermDimension) {
        forall t | t in r.terms
          ensures t.status != Unknown && t.status != Ambiguous
        {
          var y :| 0 <= y < |r.terms| && r.terms[y] == t;
          assert Trouble(r, TermDimension, y).None?;
        }
      }
    }
  }

  lemma TermsUnproved(records: seq<Campaign>, j: nat) returns (ids: set<string>)
    requires records != [] && AllClean(records, TermDimension) && forall q :: q in records ==> Count(q, TermDimension) > 0
    requires j < |records| && !Evidenced(records[j], "/terms")
    ensures Select(records, TermDimension) == Failure(ForOwnAndPeers(ids, TermEvidenceMissing, PeerTermEvidenceMissing))
    ensures forall id :: id in ids <==> exists q :: q in records && q.id == id && !Evidenced(q, "/terms")
  {
    TermsSelect(records);
    ids := UnprovedTerms(records, LongestTerms(records), j);
  }

  lemma UnprovedTerms(records: seq<Campaign>, chosen: seq<Chosen>, j: nat) returns (ids: set<string>)
    requires |records| == |chosen| && j < |records| && !Evidenced(records[j], "/terms")
    requires forall k :: 0 <= k < |records| ==> (chosen[k].evidence == [] <==> !Evidenced(records[k], "/terms"))
    ensures Proven(records, TermDimension, true, chosen)
         == Failure(ForOwnAndPeers(ids, TermEvidenceMissing, PeerTermEvidenceMissing))
    ensures forall id :: id in ids <==> exists q :: q in records && q.id == id && !Evidenced(q, "/terms")
  {
    ids := Unproven(records, chosen);
    UnprovenIds(records, chosen, q => !Evidenced(q, "/terms"));
    UnprovenHas(records, chosen, j);
  }

  /** Terms without evidence refuse every record, like values without evidence. */
  lemma UnprovenTermsRefuse(records: seq<Campaign>, i: nat, j: nat)
    requires i < |records| && AllClean(records, TermDimension) && forall q :: q in records ==> Count(q, TermDimension) > 0
    requires j < |records| && !Evidenced(records[j], "/terms")
    ensures |DimensionOutcomes(records, TermDimension)| == |records|
    ensures RefusedFor(DimensionOutcomes(records, TermDimension)[i], records[i], TermDimension,
                       if exists q :: q in records && q.id == records[i].id && !Evidenced(q, "/terms")
                       then TermEvidenceMissing else PeerTermEvidenceMissing)
  {
    var ids := TermsUnproved(records, j);
    RefusedByIds(records, TermDimension, ids, TermEvidenceMissing, PeerTermEvidenceMissing, i);
  }

  /** Eligibility is compatible for every record, without rank or figure, if every record has evidence for
      its context; otherwise every record is refused, its own evidence missing or a peer's. */
  lemma EligibilityExactly(records: seq<Campaign>, i: nat)
    requires i < |records|
    ensures |DimensionOutcomes(records, Eligibility)| == |records|
    ensures var o := DimensionOutcomes(records, Eligibility)[i];
            if forall r :: r in records ==> Evidenced(r, "/comparison_context")
            then o == Outcome(records[i].id, Eligibility, true, None, None, None, EligibilityContextCompatible,
                              EvidenceIds(records[i], "/comparison_context"))
            else RefusedFor(o, records[i], Eligibility,
                            if exists q :: q in records && q.id == records[i].id && !Evidenced(q, "/comparison_context")
                            then EligibilityEvidenceMissing else PeerEligibilityEvidenceMissing)
  {
    forall r: Campaign
      ensures EvidenceIds(r, "/comparison_context") != [] <==> Evidenced(r, "/comparison_context")
    {
      EvidencedDecides(r, "/comparison_context");
    }
    EligibilityCases(records, i, set r | r in records && EvidenceIds(r, Tail(Eligibility)) == [] :: r.id);
  }

  lemma EligibilityCases(records: seq<Campaign>, i: nat, missing: set<string>)
    requires i < |records| && missing == set r | r in records && EvidenceIds(r, "/comparison_context") == [] :: r.id
    ensures |EligibilityOutcomes(records)| == |records|
    ensures missing == {} ==>
              EligibilityOutcomes(records)[i]
              == Outcome(records[i].id, Eligibility, true, None, None, None, EligibilityContextCompatible,
                         EvidenceIds(records[i], "/comparison_context"))
    ensures missing != {} ==>
              RefusedFor(EligibilityOutcomes(records)[i], records[i], Eligibility,
                         if records[i].id in missing then EligibilityEvidenceMissing else PeerEligibilityEvidenceMissing)
    ensures missing == {} <==> forall r :: r in records ==> EvidenceIds(r, "/comparison_context") != []
    ensures records[i].id in missing <==>
              exists q :: q in records && q.id == records[i].id && EvidenceIds(q, "/comparison_context") == []
  {
    forall r | r in records && EvidenceIds(r, "/comparison_context") == []
      ensures r.id in missing
    {
    }
  }

  // ----- the evidence shown

  predicate StartsWith(pointer: string, path: string) {
    "/data" + path <= pointer || path <= pointer
  }

  /** The evidence of an id whose pointer starts with the path. */
  function PlacesOf(evidence: seq<Evidence>, path: string, id: string): set<nat> {
    set i: nat | i < |evidence| && evidence[i].id == id && StartsWith(evidence[i].pointer, path)
  }

  lemma {:induction false} SupportingCounts(evidence: seq<Evidence>, path: string, id: string)
    ensures multiset(SupportingIds(evidence, path))[id] == |PlacesOf(evidence, path, id)|
  {
    if evidence == [] {
      assert PlacesOf(evidence, path, id) == {};
    } else {
      SupportingCounts(evidence[1..], path, id);
      ShiftPlaces(evidence, path, id);
    }
  }

  lemma ShiftPlaces(evidence: seq<Evidence>, path: string, id: string)
    requires evidence != []
    ensures |PlacesOf(evidence, path, id)|
         == |PlacesOf(evidence[1..], path, id)|
            + (if evidence[0].id == id && StartsWith(evidence[0].pointer, path) then 1 else 0)
  {
    var all, rest := PlacesOf(evidence, path, id), PlacesOf(evidence[1..], path, id);
    var first: set<nat> := if evidence[0].id == id && StartsWith(evidence[0].pointer, path) then {0} else {};
    var moved := set i: nat | i in rest :: i + 1;
    SameSize(rest, moved);
    forall i: nat
      ensures i in all <==> i in first + moved
    {
      if i > 0 {
        assert i < |evidence| ==> evidence[i] == evidence[1..][i - 1];
        assert i in moved <==> i - 1 in rest;
      }
    }
    assert all == first + moved;
  }

  lemma {:induction false} SameSize(s: set<nat>, moved: set<nat>)
    requires moved == set i: nat | i in s :: i + 1
    ensures |moved| == |s|
  {
    if s != {} {
      var x :| x in s;
      var rest := set i: nat | i in s - {x} :: i + 1;
      forall y
        ensures y in moved - {x + 1} <==> y in rest
      {
        if y in moved - {x + 1} {
          var i: nat :| i in s && y == i + 1;
          assert i in s - {x};
        }
      }
      assert moved - {x + 1} == rest;
      assert x + 1 in moved;
      SameSize(s - {x}, rest);
    }
  }

  /** The evidence shown for a path is in the order of the ids, each as often as the record has evidence of
      that id whose pointer starts with the path, with "/data" in front or without. */
  lemma EvidenceExactly(r: Campaign, path: string, id: string, i: nat, j: nat)
    ensures multiset(EvidenceIds(r, path))[id]
         == |set k: nat | k < |r.evidence| && r.evidence[k].id == id
                          && ("/data" + path <= r.evidence[k].pointer || path <= r.evidence[k].pointer)|
    ensures i < j < |EvidenceIds(r, path)| ==> StrLe(EvidenceIds(r, path)[i], EvidenceIds(r, path)[j])
  {
    SupportingCounts(r.evidence, path, id);
    assert PlacesOf(r.evidence, path, id)
        == set k: nat | k < |r.evidence| && r.evidence[k].id == id
                        && ("/data" + path <= r.evidence[k].pointer || path <= r.evidence[k].pointer);
    SortIsSorted(SupportingIds(r.evidence, path), Itself);
  }
}
