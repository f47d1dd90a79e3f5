/** Which stated value a ranking shows for a record, and exactly when two of the shown ones do not
    compare: reward figures in different units, and waivers beside a price of the same kind. */
module ChosenValues {
  import opened Wrappers
  import opened Contracts
  import opened Signatures
  import opened Comparison
  import opened ReportTheorems

  // ----- the value behind a choice

  function TheCommon(records: seq<Campaign>, d: Dimension): Signature
    requires |Common(AllOffers(records, d))| == 1
  {
    TheOne(Common(AllOffers(records, d)))
  }

  lemma SelectedUnderCommon(records: seq<Campaign>, d: Dimension, sel: Selection)
    requires records != [] && d != Eligibility && d != TermDimension && Select(records, d) == Success(sel)
    ensures FirstIssue(records, d).None?
    ensures |Common(AllOffers(records, d))| == 1
    ensures MeetsOnce(records, d, TheCommon(records, d))
    ensures sel.chosen == Choices(records, d, TheCommon(records, d))
  {
  }

  function ChosenIndex(r: Campaign, d: Dimension, s: Signature): nat
    requires MeetsSignatureOnce(r, d, s)
  {
    MatchIndices(OffersOf(r, d), s)[0]
  }

  lemma ChosenIsEntry(r: Campaign, d: Dimension, s: Signature)
    requires MeetsSignatureOnce(r, d, s) && FirstFailure(Entries(r, d)).None?
    ensures var k := ChosenIndex(r, d, s);
            && k < |Entries(r, d)| && Entries(r, d)[k] == Success(Choice(r, d, s).offer)
            && Meets(Choice(r, d, s).offer, s)
  {
    var k := ChosenIndex(r, d, s);
    assert k in MatchIndices(OffersOf(r, d), s);
    OffersAreEntries(Entries(r, d));
  }

  /** What a record shows is one of its stated values, as an offer that meets the common signature. */
  lemma ChosenIsStated(records: seq<Campaign>, d: Dimension, sel: Selection, i: nat)
    requires records != [] && d != Eligibility && d != TermDimension && Select(records, d) == Success(sel)
    requires i < |records|
    ensures |Common(AllOffers(records, d))| == 1 && |sel.chosen| == |records|
    ensures var s := TheCommon(records, d);
            && MeetsSignatureOnce(records[i], d, s)
            && ChosenIndex(records[i], d, s) < |Entries(records[i], d)|
            && Entries(records[i], d)[ChosenIndex(records[i], d, s)] == Success(sel.chosen[i].offer)
            && Meets(sel.chosen[i].offer, s)
  {
    SelectedUnderCommon(records, d, sel);
    NoIssues(records, d, i);
    ChosenIsEntry(records[i], d, TheCommon(records, d));
  }

  // ----- the units of a reward ranking

  /** The reward a record shows. */
  function ChosenReward(r: Campaign, s: Signature): Option<Reward>
    requires MeetsSignatureOnce(r, RewardDimension, s)
  {
    var k := ChosenIndex(r, RewardDimension, s);
    if k < |r.rewards| then Some(r.rewards[k]) else None
  }

  /** Of two rewards under one signature: points rewards that both name an amount, in one currency,
      or both name none; discounts by rate that both state points or both do not. Amounts under one
      signature always share their currency. */
  predicate SameFigure(a: Reward, b: Reward) {
    match a.kind
    case Points =>
      (a.money.None? && b.money.None?)
      || (a.money.Some? && b.money.Some? && a.money.value.currency == b.money.value.currency)
    case Discount => a.money.Some? || (a.points.Some? <==> b.points.Some?)
    case _ => true
  }

  lemma FiguresShareUnit(a: Reward, b: Reward)
    requires RewardIssue(a).None? && RewardIssue(b).None? && RewardSignature(a) == RewardSignature(b)
    ensures RewardEntry(a).value.unit == RewardEntry(b).value.unit <==> SameFigure(a, b)
  {
  }

  /** An offer tells the reward's signature. */
  lemma RewardOfOffer(w: Reward, o: Offer, s: Signature)
    requires RewardEntry(w) == Success(o) && Meets(o, s)
    ensures RewardIssue(w).None? && RewardSignature(w) == s
  {
  }

  lemma RewardEntryAt(r: Campaign, k: nat)
    requires k < |Entries(r, RewardDimension)|
    ensures k < |r.rewards| && Entries(r, RewardDimension)[k] == RewardEntry(r.rewards[k])
  {
  }

  lemma RewardBehind(records: seq<Campaign>, sel: Selection, i: nat)
    requires records != [] && Select(records, RewardDimension) == Success(sel) && i < |records|
    ensures |Common(AllOffers(records, RewardDimension))| == 1 && |sel.chosen| == |records|
    ensures var s := TheCommon(records, RewardDimension);
            && MeetsSignatureOnce(records[i], RewardDimension, s)
            && ChosenReward(records[i], s).Some?
            && RewardIssue(ChosenReward(records[i], s).value).None?
            && RewardSignature(ChosenReward(records[i], s).value) == s
            && RewardEntry(ChosenReward(records[i], s).value) == Success(sel.chosen[i].offer)
  {
    ChosenIsStated(records, RewardDimension, sel, i);
    var s := TheCommon(records, RewardDimension);
    var k := ChosenIndex(records[i], RewardDimension, s);
    RewardEntryAt(records[i], k);
    RewardOfOffer(records[i].rewards[k], sel.chosen[i].offer, s);
  }

  /** Two figures of a reward ranking are in one unit if and only if the rewards shown prefer the same
      figure. */
  lemma RewardUnitsExactly(records: seq<Campaign>, sel: Selection, i: nat, j: nat)
    requires records != [] && Select(records, RewardDimension) == Success(sel)
    requires i < |records| && j < |records|
    ensures |Common(AllOffers(records, RewardDimension))| == 1 && |sel.chosen| == |records|
    ensures var s := TheCommon(records, RewardDimension);
            && MeetsSignatureOnce(records[i], RewardDimension, s) && MeetsSignatureOnce(records[j], RewardDimension, s)
            && ChosenReward(records[i], s).Some? && ChosenReward(records[j], s).Some?
            && (sel.chosen[i].offer.unit == sel.chosen[j].offer.unit <==>
                  SameFigure(ChosenReward(records[i], s).value, ChosenReward(records[j], s).value))
  {
    RewardBehind(records, sel, i);
    RewardBehind(records, sel, j);
    var s := TheCommon(records, RewardDimension);
    FiguresShareUnit(ChosenReward(records[i], s).value, ChosenReward(records[j], s).value);
  }

  ghost predicate OneUnit(sel: Selection) {
    forall i, j :: 0 <= i < j < |sel.chosen| ==> sel.chosen[i].offer.unit == sel.chosen[j].offer.unit
  }

  ghost predicate FiguresAgree(records: seq<Campaign>, s: Signature) {
    forall i, j :: 0 <= i < j < |records| ==> PairAgrees(records[i], records[j], s)
  }

  predicate PairAgrees(a: Campaign, b: Campaign, s: Signature) {
    && MeetsSignatureOnce(a, RewardDimension, s) && MeetsSignatureOnce(b, RewardDimension, s)
    && var v, w := ChosenReward(a, s), ChosenReward(b, s);
       v.Some? && w.Some? && SameFigure(v.value, w.value)
  }

  /** A whole reward ranking is in one unit if and only if the rewards it shows all prefer the same
      figure. */
  lemma OneUnitExactly(records: seq<Campaign>, sel: Selection)
    requires records != [] && Select(records, RewardDimension) == Success(sel)
    ensures |Common(AllOffers(records, RewardDimension))| == 1
    ensures OneUnit(sel) <==> FiguresAgree(records, TheCommon(records, RewardDimension))
  {
    SelectedUnderCommon(records, RewardDimension, sel);
    var s := TheCommon(records, RewardDimension);
    forall i, j | 0 <= i < j < |records|
      ensures sel.chosen[i].offer.unit == sel.chosen[j].offer.unit <==> PairAgrees(records[i], records[j], s)
    {
      PairDecides(records, sel, i, j, s);
    }
  }

  lemma PairDecides(records: seq<Campaign>, sel: Selection, i: nat, j: nat, s: Signature)
    requires records != [] && Select(records, RewardDimension) == Success(sel)
    requires |Common(AllOffers(records, RewardDimension))| == 1 && s == TheCommon(records, RewardDimension)
    requires i < |records| && j < |records|
    ensures |sel.chosen| == |records|
    ensures sel.chosen[i].offer.unit == sel.chosen[j].offer.unit <==> PairAgrees(records[i], records[j], s)
  {
    RewardUnitsExactly(records, sel, i, j);
  }

  // ----- waivers and the prices beside them

  predicate WaivesFee(r: Campaign, kind: FeeKind, basis: FeeBasis) {
    exists f :: f in r.fees && f.waived && f.kind == kind && f.basis == basis
  }

  predicate PricesFee(r: Campaign, kind: FeeKind, basis: FeeBasis) {
    exists f :: f in r.fees && !f.waived && f.kind == kind && f.basis == basis
  }

  /** The record states a price with exactly this signature. */
  predicate PricesAs(r: Campaign, s: Signature) {
    exists f :: f in r.fees && !f.waived && FeeIssue(f).None? && FeeSignature(f) == s
  }

  lemma FeeIsOffered(r: Campaign, k: nat)
    requires FirstFailure(Entries(r, FeeDimension)).None? && k < |r.fees|
    ensures FeeIssue(r.fees[k]).None? && |OffersOf(r, FeeDimension)| == |r.fees|
    ensures FeeEntry(r.fees[k]) == Success(OffersOf(r, FeeDimension)[k])
  {
    OffersAreEntries(Entries(r, FeeDimension));
    assert Entries(r, FeeDimension)[k] == FeeEntry(r.fees[k]);
  }

  /** One match leaves no room for two. */
  lemma {:induction false} OnlyMatch(offers: seq<Offer>, s: Signature, k: nat, l: nat)
    requires |MatchIndices(offers, s)| == 1
    requires k < |offers| && l < |offers| && Meets(offers[k], s) && Meets(offers[l], s)
    ensures k == l
  {
    assert k in MatchIndices(offers, s) && l in MatchIndices(offers, s);
  }

  lemma ChosenFee(records: seq<Campaign>, sel: Selection, i: nat) returns (k: nat)
    requires records != [] && Select(records, FeeDimension) == Success(sel) && i < |records|
    ensures |Common(AllOffers(records, FeeDimension))| == 1 && |sel.chosen| == |records|
    ensures FirstFailure(Entries(records[i], FeeDimension)).None?
    ensures MeetsSignatureOnce(records[i], FeeDimension, TheCommon(records, FeeDimension))
    ensures k < |records[i].fees| == |OffersOf(records[i], FeeDimension)|
    ensures OffersOf(records[i], FeeDimension)[k] == sel.chosen[i].offer
    ensures FeeEntry(records[i].fees[k]) == Success(sel.chosen[i].offer)
    ensures Meets(sel.chosen[i].offer, TheCommon(records, FeeDimension))
  {
    SelectedUnderCommon(records, FeeDimension, sel);
    NoIssues(records, FeeDimension, i);
    ChosenIsStated(records, FeeDimension, sel, i);
    k := ChosenIndex(records[i], FeeDimension, TheCommon(records, FeeDimension));
    FeeIsOffered(records[i], k);
  }

  /** Any fee of the record that meets the signature is the one shown. */
  lemma MeetingFeeIsChosen(r: Campaign, s: Signature, k: nat, l: nat)
    requires FirstFailure(Entries(r, FeeDimension)).None? && MeetsSignatureOnce(r, FeeDimension, s)
    requires k < |r.fees| && l < |r.fees|
    requires FeeEntry(r.fees[k]).Success? && Meets(FeeEntry(r.fees[k]).value, s)
    requires FeeEntry(r.fees[l]).Success? && Meets(FeeEntry(r.fees[l]).value, s)
    ensures k == l
  {
    FeeIsOffered(r, k);
    FeeIsOffered(r, l);
    OnlyMatch(OffersOf(r, FeeDimension), s, k, l);
  }

  /** A record whose fees meet the signature once, by fee `k`, waives the kind and basis exactly when
      that fee is a waiver. */
  lemma WaiverIsShown(r: Campaign, s: Signature, k: nat)
    requires FirstFailure(Entries(r, FeeDimension)).None? && MeetsSignatureOnce(r, FeeDimension, s) && s.FeeSig?
    requires k < |r.fees| && FeeEntry(r.fees[k]).Success? && Meets(FeeEntry(r.fees[k]).value, s)
    ensures r.fees[k].waived <==> WaivesFee(r, s.feeKind, s.feeBasis)
  {
    assert r.fees[k] in r.fees;
    if WaivesFee(r, s.feeKind, s.feeBasis) {
      var f :| f in r.fees && f.waived && f.kind == s.feeKind && f.basis == s.feeBasis;
      var l :| 0 <= l < |r.fees| && r.fees[l] == f;
      FeeIsOffered(r, l);
      MeetingFeeIsChosen(r, s, k, l);
    }
  }

  /** And prices it with the very signature exactly when that fee is a price. */
  lemma PriceIsShown(r: Campaign, s: Signature, k: nat)
    requires FirstFailure(Entries(r, FeeDimension)).None? && MeetsSignatureOnce(r, FeeDimension, s) && s.FeeSig?
    requires k < |r.fees| && FeeEntry(r.fees[k]).Success? && Meets(FeeEntry(r.fees[k]).value, s)
    ensures !r.fees[k].waived <==> PricesAs(r, s)
  {
    assert r.fees[k] in r.fees;
    if PricesAs(r, s) {
      var f :| f in r.fees && !f.waived && FeeIssue(f).None? && FeeSignature(f) == s;
      var l :| 0 <= l < |r.fees| && r.fees[l] == f;
      MeetingFeeIsChosen(r, s, k, l);
    }
  }

  lemma FeeOffer(f: Fee, o: Offer, s: Signature)
    requires FeeEntry(f) == Success(o) && Meets(o, s)
    ensures s.FeeSig? && (o.waived <==> f.waived)
  {
  }

  /** The signature of a fee selection is of a fee, and what a record shows decides which of its
      fees meet it. */
  lemma ShownDecides(records: seq<Campaign>, sel: Selection, i: nat)
    requires records != [] && Select(records, FeeDimension) == Success(sel) && i < |records|
    ensures |Common(AllOffers(records, FeeDimension))| == 1 && |sel.chosen| == |records|
    ensures var s := TheCommon(records, FeeDimension);
            && s.FeeSig?
            && (sel.chosen[i].offer.waived <==> WaivesFee(records[i], s.feeKind, s.feeBasis))
            && (!sel.chosen[i].offer.waived <==> PricesAs(records[i], s))
  {
    var k := ChosenFee(records, sel, i);
    var s := TheCommon(records, FeeDimension);
    FeeOffer(records[i].fees[k], sel.chosen[i].offer, s);
    WaiverIsShown(records[i], s, k);
    PriceIsShown(records[i], s, k);
  }

  /** In every fee ranking a record is ranked by a waiver while it states a price of the same kind and
      basis if and only if it both waives and prices that kind and basis. A waiver and a price of the
      very signature never occur together, for they would both match; so a price beside a waiver is
      in another currency or mode, and a record without a waiver is ranked by its matching price. */
  lemma HiddenPriceExactly(records: seq<Campaign>, sel: Selection, i: nat)
    requires records != [] && Select(records, FeeDimension) == Success(sel) && i < |records|
    ensures |Common(AllOffers(records, FeeDimension))| == 1 && |sel.chosen| == |records|
    ensures var s := TheCommon(records, FeeDimension);
            && s.FeeSig?
            && (sel.chosen[i].offer.waived && PricesFee(records[i], s.feeKind, s.feeBasis) <==>
                  WaivesFee(records[i], s.feeKind, s.feeBasis) && PricesFee(records[i], s.feeKind, s.feeBasis))
            && (WaivesFee(records[i], s.feeKind, s.feeBasis) <==> !PricesAs(records[i], s))
            && (s.mode == WaivedMode ==> !PricesFee(records[i], s.feeKind, s.feeBasis))
  {
    ShownDecides(records, sel, i);
    var s, r := TheCommon(records, FeeDimension), records[i];
    if s.mode == WaivedMode && PricesFee(r, s.feeKind, s.feeBasis) {
      NoPriceUnderWaiver(records, sel, i);
    }
  }

  lemma NoPriceUnderWaiver(records: seq<Campaign>, sel: Selection, i: nat)
    requires records != [] && Select(records, FeeDimension) == Success(sel) && i < |records|
    requires |Common(AllOffers(records, FeeDimension))| == 1
    requires TheCommon(records, FeeDimension).FeeSig? && TheCommon(records, FeeDimension).mode == WaivedMode
    ensures var s := TheCommon(records, FeeDimension); !PricesFee(records[i], s.feeKind, s.feeBasis)
  {
    var s, r := TheCommon(records, FeeDimension), records[i];
    var k := ChosenFee(records, sel, i);
    forall f | f in r.fees && f.kind == s.feeKind && f.basis == s.feeBasis
      ensures f.waived
    {
      var l :| 0 <= l < |r.fees| && r.fees[l] == f;
      FeeIsOffered(r, l);
      FeeEntryPair(f, OffersOf(r, FeeDimension)[l]);
      AllOffersProper(records, FeeDimension);
      AllWaivedHidesNoPrice(AllOffers(records, FeeDimension), s, i, OffersOf(r, FeeDimension)[l]);
    }
  }

  lemma FeeEntryPair(f: Fee, o: Offer)
    requires FeeEntry(f) == Success(o)
    ensures o.signature.FeeSig? && o.signature.feeKind == f.kind && o.signature.feeBasis == f.basis
    ensures o.waived <==> f.waived
  {
  }
}
