/** What one stated value offers to a comparison: either the reason it cannot be compared, or a
    signature that says what it may be compared with, and the figure it ranks by. */
module Signatures {
  import opened Wrappers
  import opened Contracts

  datatype FeeMode =
    | WaivedMode
    | MoneyMode(currency: string)
    | RateMode(period: RatePeriod, grossNet: GrossNet, basisText: string)

  datatype RewardMode = RewardMoney(currency: string) | RewardPoints(program: string) | RewardByRate(rate: Signature)

  datatype Signature =
    | RateSig(kind: RateKind, period: RatePeriod, grossNet: GrossNet, startsOn: Option<int>,
              endsOn: Option<int>, termMonths: Option<int>, basisText: string)
    | FeeSig(feeKind: FeeKind, feeBasis: FeeBasis, mode: FeeMode)
    | RewardSig(rewardKind: RewardKind, rewardBasis: RewardBasis, rewardMode: RewardMode,
                minimumSpend: Option<(string, string)>, maximumMoney: Option<(string, string)>,
                maximumPoints: Option<string>)
    | TermSig

  datatype Unit = Percent | Months | PointsUnit | CurrencyUnit(code: string)

  datatype Offer = Offer(signature: Signature, waived: bool, value: Option<real>, unit: Option<Unit>)

  type Entry = Result<Offer, Reason>

  function Label(text: Option<string>): string {
    if text.None? then "" else text.value
  }

  // ----- rates

  function RateIssue(r: Rate): Option<Reason> {
    if Unclear(r.status) then Some(RateBasisUnknown)
    else if r.kind == UnknownRate then Some(RateKindUnknown)
    else if r.kind == LtvRatio then None
    else if r.period == UnspecifiedPeriod then Some(RatePeriodUnknown)
    else if (r.kind == FinancingProfitRate || r.kind == AnnualCostRate)
            && (r.termMonths.None? || r.termMonths.value <= 0) then Some(RateTermContextUnknown)
    else if (r.kind == ProfitShareDistributionRate || r.kind == HistoricalReturnRate)
            && r.grossNet == UnspecifiedGrossNet then Some(RateGrossNetBasisUnknown)
    else if r.kind == HistoricalReturnRate && (r.referenceStartsOn.None? || r.referenceEndsOn.None?)
      then Some(RateReferenceWindowUnknown)
    else None
  }

  function RateSignature(r: Rate): Signature {
    RateSig(r.kind, r.period, r.grossNet, r.referenceStartsOn, r.referenceEndsOn, r.termMonths, Label(r.basisLabel))
  }

  function RateEntry(r: Rate): Entry {
    if RateIssue(r).Some? then Failure(RateIssue(r).value)
    else Success(Offer(RateSignature(r), false, Some(r.valuePercent), Some(Percent)))
  }

  predicate HigherRateIsBetter(kind: RateKind) {
    kind == ProfitShareDistributionRate || kind == HistoricalReturnRate || kind == DiscountRate
    || kind == RewardRate || kind == LtvRatio
  }

  // ----- fees

  function FeeIssue(f: Fee): Option<Reason> {
    if Unclear(f.status) then Some(FeeBasisUnknown)
    else if f.kind == UnknownFee then Some(FeeKindUnknown)
    else if f.basis == UnspecifiedFeeBasis then Some(FeeBasisUnknown)
    else if f.waived then None
    else if f.money.None? == f.rate.None? then Some(FeeNotNumeric)
    else if f.rate.Some? && (Unclear(f.rate.value.status) || f.rate.value.period == UnspecifiedPeriod
                             || f.rate.value.basisLabel.None?) then Some(FeeRateContextUnknown)
    else None
  }

  function FeeSignature(f: Fee): Signature
    requires FeeIssue(f).None?
  {
    FeeSig(f.kind, f.basis,
           if f.waived then WaivedMode
           else if f.money.Some? then MoneyMode(f.money.value.currency)
           else RateMode(f.rate.value.period, f.rate.value.grossNet, Label(f.rate.value.basisLabel)))
  }

  function FeeEntry(f: Fee): Entry {
    if FeeIssue(f).Some? then Failure(FeeIssue(f).value)
    else Success(
      if f.waived then Offer(FeeSignature(f), true, None, None)
      else if f.money.Some? then
        Offer(FeeSignature(f), false, Some(f.money.value.amount), Some(CurrencyUnit(f.money.value.currency)))
      else Offer(FeeSignature(f), false, Some(f.rate.value.valuePercent), Some(Percent)))
  }

  // ----- rewards

  function RewardIssue(r: Reward): Option<Reason> {
    if Unclear(r.status) || r.basis == UnspecifiedRewardBasis then Some(RewardBasisUnknown)
    else if r.kind == Points && r.programName.None? then Some(RewardProgramUnknown)
    else if r.kind == MoneyReward && r.money.None? then Some(RewardNotNumeric)
    else if r.kind == Points && r.points.None? then Some(RewardNotNumeric)
    else if r.kind == Discount && r.money.None? && r.rate.None? then Some(RewardNotNumeric)
    else if r.rate.Some? && RateIssue(r.rate.value).Some? then Some(RewardRateContextUnknown)
    else if r.kind == FreeService || r.kind == OtherReward then Some(RewardNotNumeric)
    else None
  }

  function MoneyContext(m: Option<Money>): Option<(string, string)> {
    if m.None? then None else Some((m.value.currency, m.value.text))
  }

  function RewardSignature(r: Reward): Signature
    requires RewardIssue(r).None?
  {
    RewardSig(
      r.kind, r.basis,
      if r.kind == MoneyReward then RewardMoney(r.money.value.currency)
      else if r.kind == Points then RewardPoints(Label(r.programName))
      else if r.money.Some? then RewardMoney(r.money.value.currency)
      else RewardByRate(RateSignature(r.rate.value)),
      MoneyContext(r.minimumSpend), MoneyContext(r.maximumMoney), r.maximumPoints)
  }

  /** The ranked figure prefers money, then points, then the rate, whatever the kind says. */
  function RewardEntry(r: Reward): Entry {
    if RewardIssue(r).Some? then Failure(RewardIssue(r).value)
    else Success(
      if r.money.Some? then
        Offer(RewardSignature(r), false, Some(r.money.value.amount), Some(CurrencyUnit(r.money.value.currency)))
      else if r.points.Some? then Offer(RewardSignature(r), false, r.points, Some(PointsUnit))
      else Offer(RewardSignature(r), false, Some(r.rate.value.valuePercent), Some(Percent)))
  }

  // ----- one unit for one signature

  /** The unit a signature announces; a waiver announces none. */
  function SignatureUnit(s: Signature): Option<Unit> {
    match s
    case RateSig(_, _, _, _, _, _, _) => Some(Percent)
    case TermSig => Some(Months)
    case FeeSig(_, _, WaivedMode) => None
    case FeeSig(_, _, MoneyMode(currency)) => Some(CurrencyUnit(currency))
    case FeeSig(_, _, RateMode(_, _, _)) => Some(Percent)
    case RewardSig(_, _, RewardMoney(currency), _, _, _) => Some(CurrencyUnit(currency))
    case RewardSig(_, _, RewardPoints(_), _, _, _) => Some(PointsUnit)
    case RewardSig(_, _, RewardByRate(_), _, _, _) => Some(Percent)
  }

  /** A reward states no second figure that would take the place of the one its kind names. */
  predicate SingleFigure(r: Reward) {
    && (r.kind == Points ==> r.money.None?)
    && (r.kind == Discount && r.money.None? ==> r.points.None?)
  }

  // ----- signatures that every record can serve

  predicate SamePair(a: Signature, b: Signature) {
    a.FeeSig? && b.FeeSig? && a.feeKind == b.feeKind && a.feeBasis == b.feeBasis
  }

  /** A waiver meets every signature of its kind and basis; a priced offer only its own. */
  predicate Meets(o: Offer, s: Signature) {
    if o.waived then SamePair(o.signature, s) else o.signature == s
  }

  predicate Prices(offers: seq<Offer>, s: Signature) {
    exists o :: o in offers && !o.waived && o.signature == s
  }

  predicate PricesPair(offers: seq<Offer>, s: Signature) {
    exists o :: o in offers && !o.waived && SamePair(o.signature, s)
  }

  predicate Waives(offers: seq<Offer>, s: Signature) {
    exists o :: o in offers && o.waived && SamePair(o.signature, s)
  }

  /** Waivers, and only waivers, carry the waived mode. */
  predicate Proper(offers: seq<Offer>) {
    forall o :: o in offers ==>
      (o.waived <==> o.signature.FeeSig? && o.signature.mode == WaivedMode) && (!o.waived ==> o.value.Some?)
  }

  predicate AllProper(all: seq<seq<Offer>>) {
    forall i :: 0 <= i < |all| ==> Proper(all[i])
  }

  /** A priced signature is common when some record states it and every record states it or waives
      its kind and basis; the all-waived one when every record waives the pair and none prices it. */
  predicate IsCommon(all: seq<seq<Offer>>, s: Signature) {
    || ((exists i :: 0 <= i < |all| && Prices(all[i], s))
        && forall i :: 0 <= i < |all| ==> Prices(all[i], s) || Waives(all[i], s))
    || (s.FeeSig? && s.mode == WaivedMode
        && (forall i :: 0 <= i < |all| ==> Waives(all[i], s))
        && forall i :: 0 <= i < |all| ==> !PricesPair(all[i], s))
  }

  function Stated(all: seq<seq<Offer>>): set<Signature> {
    set i, o | 0 <= i < |all| && o in all[i] :: o.signature
  }

  function Common(all: seq<seq<Offer>>): set<Signature> {
    set s | s in Stated(all) && IsCommon(all, s)
  }

  /** No common signature goes unstated, so collecting from the stated ones misses none. */
  lemma CommonIsComplete(all: seq<seq<Offer>>, s: Signature)
    requires all != [] && AllProper(all)
    ensures s in Common(all) <==> IsCommon(all, s)
  {
    if IsCommon(all, s) {
      if i, o :| 0 <= i < |all| && o in all[i] && !o.waived && o.signature == s {
      } else {
        assert Waives(all[0], s);
        var o :| o in all[0] && o.waived && SamePair(o.signature, s);
        assert o.signature == s;
      }
    }
  }

  /** Every record has an offer that meets a common signature; without waivers, one that is equal. */
  lemma CommonIsServed(all: seq<seq<Offer>>, s: Signature, i: nat)
    requires i < |all| && s in Common(all)
    ensures exists o :: o in all[i] && Meets(o, s)
    ensures (forall j :: 0 <= j < |all| ==> forall o :: o in all[j] ==> !o.waived) ==> Prices(all[i], s)
  {
    if Prices(all[i], s) {
    } else {
      assert Waives(all[i], s);
    }
  }

  /** Two priced offers that meet one signature share it: the same kind, basis and currency, or
      the same rate context. */
  lemma MeetingOffersAgree(a: Offer, b: Offer, s: Signature)
    requires Meets(a, s) && Meets(b, s)
    ensures !a.waived && !b.waived ==> a.signature == b.signature
    ensures a.waived ==> SamePair(a.signature, s)
  {
  }

  /** Under the all-waived signature no record has a price of that kind and basis to hide. */
  lemma AllWaivedHidesNoPrice(all: seq<seq<Offer>>, s: Signature, i: nat, o: Offer)
    requires AllProper(all)
    requires s in Common(all) && s.FeeSig? && s.mode == WaivedMode
    requires i < |all| && o in all[i] && SamePair(o.signature, s)
    ensures o.waived
  {
    assert forall j :: 0 <= j < |all| ==> !Prices(all[j], s);
    assert !PricesPair(all[i], s);
  }

  type Pair = (FeeKind, FeeBasis)

  function PairOf(s: Signature): Pair
    requires s.FeeSig?
  {
    (s.feeKind, s.feeBasis)
  }

  function PricedSet(offers: seq<Offer>): set<Signature> {
    set o | o in offers && !o.waived :: o.signature
  }

  function WaivedSet(offers: seq<Offer>): set<Pair> {
    set o | o in offers && o.waived && o.signature.FeeSig? :: PairOf(o.signature)
  }

  lemma SetsDecide(offers: seq<Offer>, s: Signature)
    ensures s in PricedSet(offers) <==> Prices(offers, s)
    ensures s.FeeSig? ==> (PairOf(s) in WaivedSet(offers) <==> Waives(offers, s))
  {
    if s.FeeSig? && Waives(offers, s) {
      var o :| o in offers && o.waived && SamePair(o.signature, s);
      assert PairOf(o.signature) == PairOf(s);
    }
  }

  /** Collecting the common fee signatures: first the priced ones that every record can serve, then
      the waived pairs that no record prices. */
  method CommonFeeSignatures(all: seq<seq<Offer>>) returns (common: set<Signature>)
    requires all != [] && AllProper(all)
    requires forall i, o :: 0 <= i < |all| && o in all[i] ==> o.signature.FeeSig?
    ensures common == Common(all)
  {
    var union: set<Signature> := set i, s | 0 <= i < |all| && s in PricedSet(all[i]) :: s;
    common := {};
    var pending := union;
    while pending != {}
      invariant pending <= union
      invariant forall s :: s in common <==> s in union - pending && ServedByAll(all, s)
      decreases pending
    {
      var s :| s in pending;
      PricedAreFees(all, s);
      ServedBySets(all, s);
      if forall i :: 0 <= i < |all| ==> s in PricedSet(all[i]) || PairOf(s) in WaivedSet(all[i]) {
        common := common + {s};
      }
      pending := pending - {s};
    }
    var waived := set p | p in WaivedSet(all[0]) && forall i :: 0 <= i < |all| ==> p in WaivedSet(all[i]);
    var pairs := waived;
    ghost var priced := common;
    while pairs != {}
      invariant pairs <= waived
      invariant forall s :: s in common <==> s in priced || IsWaivedOf(s, waived - pairs, union)
      decreases pairs
    {
      var p :| p in pairs;
      if !exists s :: s in union && s.FeeSig? && PairOf(s) == p {
        common := common + {FeeSig(p.0, p.1, WaivedMode)};
      }
      pairs := pairs - {p};
    }
    forall s
      ensures s in common <==> s in Common(all)
    {
      CommonIsComplete(all, s);
      CollectedIsCommon(all, union, waived, s);
    }
  }

  predicate ServedByAll(all: seq<seq<Offer>>, s: Signature) {
    forall i :: 0 <= i < |all| ==> Prices(all[i], s) || Waives(all[i], s)
  }

  predicate IsWaivedOf(s: Signature, pairs: set<Pair>, union: set<Signature>) {
    && s.FeeSig? && s.mode == WaivedMode && PairOf(s) in pairs
    && !exists t :: t in union && t.FeeSig? && PairOf(t) == PairOf(s)
  }

  lemma PricedAreFees(all: seq<seq<Offer>>, s: Signature)
    requires forall i, o :: 0 <= i < |all| && o in all[i] ==> o.signature.FeeSig?
    requires exists i :: 0 <= i < |all| && s in PricedSet(all[i])
    ensures s.FeeSig?
  {
  }

  lemma ServedBySets(all: seq<seq<Offer>>, s: Signature)
    requires s.FeeSig?
    ensures (forall i :: 0 <= i < |all| ==> s in PricedSet(all[i]) || PairOf(s) in WaivedSet(all[i]))
        <==> ServedByAll(all, s)
  {
    forall i | 0 <= i < |all|
      ensures (s in PricedSet(all[i]) || PairOf(s) in WaivedSet(all[i])) <==> (Prices(all[i], s) || Waives(all[i], s))
    {
      SetsDecide(all[i], s);
    }
  }

  lemma CollectedIsCommon(all: seq<seq<Offer>>, union: set<Signature>, waived: set<Pair>, s: Signature)
    requires all != []
    requires forall i, o :: 0 <= i < |all| && o in all[i] ==> o.signature.FeeSig?
    requires union == set i, s | 0 <= i < |all| && s in PricedSet(all[i]) :: s
    requires waived == set p | p in WaivedSet(all[0]) && forall i :: 0 <= i < |all| ==> p in WaivedSet(all[i])
    ensures IsCommon(all, s) <==> (s in union && ServedByAll(all, s)) || IsWaivedOf(s, waived, union)
  {
    forall i | 0 <= i < |all|
      ensures s in PricedSet(all[i]) <==> Prices(all[i], s)
      ensures s.FeeSig? ==> (PairOf(s) in WaivedSet(all[i]) <==> Waives(all[i], s))
    {
      SetsDecide(all[i], s);
    }
    assert s in union <==> exists i :: 0 <= i < |all| && Prices(all[i], s);
    if s.FeeSig? {
      assert PairOf(s) in waived <==> forall i :: 0 <= i < |all| ==> Waives(all[i], s);
      UnionPricesPair(all, union, s);
    }
  }

  lemma UnionPricesPair(all: seq<seq<Offer>>, union: set<Signature>, s: Signature)
    requires s.FeeSig?
    requires union == set i, s | 0 <= i < |all| && s in PricedSet(all[i]) :: s
    ensures (exists t :: t in union && t.FeeSig? && PairOf(t) == PairOf(s)) <==>
            (exists i :: 0 <= i < |all| && PricesPair(all[i], s))
  {
    if t :| t in union && t.FeeSig? && PairOf(t) == PairOf(s) {
      var i :| 0 <= i < |all| && t in PricedSet(all[i]);
      var o :| o in all[i] && !o.waived && o.signature == t;
      assert SamePair(o.signature, s);
    }
    if i :| 0 <= i < |all| && PricesPair(all[i], s) {
      var o :| o in all[i] && !o.waived && SamePair(o.signature, s);
      assert o.signature in PricedSet(all[i]);
      assert o.signature in union;
    }
  }
}
