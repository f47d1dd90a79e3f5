/** One dimension of a comparison: choose the one value each record contributes, or reject every
    record with a reason; then rank what was chosen. */
module Comparison {
  import opened Wrappers
  import opened Contracts
  import opened Signatures
  import opened Ranking
  import opened Ordering
  import opened Digits

  datatype Dimension = Eligibility | FeeDimension | RateDimension | RewardDimension | TermDimension

  datatype Outcome = Outcome(
    campaign: string, dimension: Dimension, comparable: bool, rank: Option<nat>,
    value: Option<real>, unit: Option<Unit>, reason: Reason, evidence: seq<string>)

  /** Why no record is comparable: one reason for all, or one for the records at fault and another
      for their peers. */
  datatype Rejection = ForAll(reason: Reason) | ForOwnAndPeers(affected: set<string>, own: Reason, peer: Reason)

  datatype Chosen = Chosen(offer: Offer, evidence: seq<string>)

  datatype Selection = Selection(higherIsBetter: bool, chosen: seq<Chosen>)

  // ----- evidence

  /** Evidence counts when its pointer starts with the prefix, or with the prefix less "/data". */
  predicate Supports(e: Evidence, tail: string) {
    "/data" + tail <= e.pointer || tail <= e.pointer
  }

  function SupportingIds(evidence: seq<Evidence>, tail: string): seq<string> {
    if evidence == [] then []
    else (if Supports(evidence[0], tail) then [evidence[0].id] else []) + SupportingIds(evidence[1..], tail)
  }

  function Itself(id: string): string {
    id
  }

  function EvidenceIds(r: Campaign, tail: string): seq<string> {
    SortBy(SupportingIds(r.evidence, tail), Itself)
  }

  lemma {:induction false} SupportingNonempty(evidence: seq<Evidence>, tail: string)
    ensures SupportingIds(evidence, tail) != [] <==> exists e :: e in evidence && Supports(e, tail)
  {
    if evidence != [] {
      SupportingNonempty(evidence[1..], tail);
    }
  }

  // ----- the per-dimension vocabulary

  function Entries(r: Campaign, d: Dimension): seq<Entry> {
    match d
    case RateDimension => seq(|r.rates|, i requires 0 <= i < |r.rates| => RateEntry(r.rates[i]))
    case FeeDimension => seq(|r.fees|, i requires 0 <= i < |r.fees| => FeeEntry(r.fees[i]))
    case RewardDimension => seq(|r.rewards|, i requires 0 <= i < |r.rewards| => RewardEntry(r.rewards[i]))
    case TermDimension => seq(|r.terms|, i requires 0 <= i < |r.terms| => TermEntry(r.terms[i]))
    case Eligibility => []
  }

  function TermEntry(t: Term): Entry {
    if Unclear(t.status) then Failure(TermAmbiguous)
    else Success(Offer(TermSig, false, Some(t.maximumMonths as real), Some(Months)))
  }

  function Tail(d: Dimension): string {
    match d
    case RateDimension => "/rates"
    case FeeDimension => "/fees"
    case RewardDimension => "/rewards"
    case TermDimension => "/terms"
    case Eligibility => "/comparison_context"
  }

  function MissingReason(d: Dimension): Reason {
    match d
    case RateDimension => RateMissing
    case FeeDimension => FeeMissing
    case RewardDimension => RewardMissing
    case TermDimension => TermMissing
    case Eligibility => EligibilityEvidenceMissing
  }

  function PeerMissingReason(d: Dimension): Reason {
    match d
    case RateDimension => PeerRateMissing
    case FeeDimension => PeerFeeMissing
    case RewardDimension => PeerRewardMissing
    case TermDimension => PeerTermMissing
    case Eligibility => PeerEligibilityEvidenceMissing
  }

  function EvidenceMissingReason(d: Dimension): Reason {
    match d
    case RateDimension => RateEvidenceMissing
    case FeeDimension => FeeEvidenceMissing
    case RewardDimension => RewardEvidenceMissing
    case TermDimension => TermEvidenceMissing
    case Eligibility => EligibilityEvidenceMissing
  }

  function PeerEvidenceMissingReason(d: Dimension): Reason {
    match d
    case RateDimension => PeerRateEvidenceMissing
    case FeeDimension => PeerFeeEvidenceMissing
    case RewardDimension => PeerRewardEvidenceMissing
    case TermDimension => PeerTermEvidenceMissing
    case Eligibility => PeerEligibilityEvidenceMissing
  }

  function ManySignatures(d: Dimension): Reason {
    match d
    case FeeDimension => MultipleFeeSignatures
    case RewardDimension => MultipleRewardSignatures
    case _ => MultipleRateSignatures
  }

  function ManyValues(d: Dimension): Reason {
    match d
    case FeeDimension => MultipleFeeSignatures
    case RewardDimension => MultipleRewardSignatures
    case _ => MultipleRateValuesForSignature
  }

  /** The first feature in which no value of every record agrees. */
  function MismatchReason(records: seq<Campaign>, d: Dimension): Reason
    requires records != []
  {
    match d
    case FeeDimension => FeeMismatch(records)
    case RewardDimension => RewardMismatch(records)
    case _ => RateMismatch(records)
  }

  predicate SharesRateKind(records: seq<Campaign>)
    requires records != []
  {
    exists a :: a in records[0].rates && forall r :: r in records ==> exists b :: b in r.rates && b.kind == a.kind
  }

  predicate SharesRatePeriod(records: seq<Campaign>)
    requires records != []
  {
    exists a :: a in records[0].rates && forall r :: r in records ==> exists b :: b in r.rates && b.kind == a.kind && b.period == a.period
  }

  function RateMismatch(records: seq<Campaign>): Reason
    requires records != []
  {
    if !SharesRateKind(records) then RateKindMismatch
    else if !SharesRatePeriod(records) then RatePeriodMismatch
    else RateBasisMismatch
  }

  /** The value modes of a fee; a waiver charges nothing in either, so it has both. */
  predicate HasMode(f: Fee, money: bool) {
    f.waived || (f.money.Some? <==> money)
  }

  predicate SharesFeeKind(records: seq<Campaign>)
    requires records != []
  {
    exists a :: a in records[0].fees && forall r :: r in records ==> exists b :: b in r.fees && b.kind == a.kind
  }

  predicate SharesFeeBasis(records: seq<Campaign>)
    requires records != []
  {
    exists a :: a in records[0].fees && forall r :: r in records ==> exists b :: b in r.fees && b.kind == a.kind && b.basis == a.basis
  }

  predicate SharesFeeMode(records: seq<Campaign>)
    requires records != []
  {
    exists a, m: bool :: a in records[0].fees && HasMode(a, m) && forall r :: r in records ==>
      exists b :: b in r.fees && b.kind == a.kind && b.basis == a.basis && HasMode(b, m)
  }

  function FeeMismatch(records: seq<Campaign>): Reason
    requires records != []
  {
    if !SharesFeeKind(records) then FeeKindMismatch
    else if !SharesFeeBasis(records) then FeeBasisMismatch
    else if !SharesFeeMode(records) then FeeValueTypeMismatch
    else FeeCurrencyMismatch
  }

  predicate SharesRewardKind(records: seq<Campaign>)
    requires records != []
  {
    exists a :: a in records[0].rewards && forall r :: r in records ==> exists b :: b in r.rewards && b.kind == a.kind
  }

  predicate SharesRewardBasis(records: seq<Campaign>)
    requires records != []
  {
    exists a :: a in records[0].rewards && forall r :: r in records ==> exists b :: b in r.rewards && b.kind == a.kind && b.basis == a.basis
  }

  predicate SharesRewardProgram(records: seq<Campaign>)
    requires records != []
  {
    exists a :: a in records[0].rewards && forall r :: r in records ==>
      exists b :: b in r.rewards && b.kind == a.kind && Label(b.programName) == Label(a.programName)
  }

  function RewardMismatch(records: seq<Campaign>): Reason
    requires records != []
  {
    if !SharesRewardKind(records) then RewardKindMismatch
    else if !SharesRewardBasis(records) then RewardBasisMismatch
    else if !SharesRewardProgram(records) then RewardProgramMismatch
    else RewardContextMismatch
  }

  // ----- choosing, as a specification

  function FirstFailure(entries: seq<Entry>): Option<Reason> {
    if entries == [] then None
    else if entries[0].Failure? then Some(entries[0].error)
    else FirstFailure(entries[1..])
  }

  /** The first issue in record order, and within a record in value order. */
  function FirstIssue(records: seq<Campaign>, d: Dimension): Option<Reason> {
    if records == [] then None
    else
      var own := FirstFailure(Entries(records[0], d));
      if own.Some? then own else FirstIssue(records[1..], d)
  }

  /** The offers of a record that states no issue. */
  function Offers(entries: seq<Entry>): seq<Offer> {
    if entries == [] then []
    else (if entries[0].Success? then [entries[0].value] else []) + Offers(entries[1..])
  }

  function OffersOf(r: Campaign, d: Dimension): seq<Offer> {
    Offers(Entries(r, d))
  }

  function AllOffers(records: seq<Campaign>, d: Dimension): (all: seq<seq<Offer>>)
    ensures |all| == |records|
    ensures forall i :: 0 <= i < |all| ==> all[i] == OffersOf(records[i], d)
  {
    seq(|records|, i requires 0 <= i < |records| => OffersOf(records[i], d))
  }

  function MatchIndices(offers: seq<Offer>, s: Signature): (r: seq<nat>)
    ensures forall i :: i in r <==> 0 <= i < |offers| && Meets(offers[i], s)
  {
    if offers == [] then []
    else
      var init := offers[..|offers| - 1];
      MatchIndices(init, s) + (if Meets(offers[|offers| - 1], s) then [|offers| - 1] else [])
  }

  predicate Lacks(r: Campaign, d: Dimension) {
    Entries(r, d) == []
  }

  function Without(records: seq<Campaign>, d: Dimension): set<string> {
    set r | r in records && Lacks(r, d) :: r.id
  }

  predicate MeetsSignatureOnce(r: Campaign, d: Dimension, s: Signature) {
    |MatchIndices(OffersOf(r, d), s)| == 1
  }

  predicate MeetsOnce(records: seq<Campaign>, d: Dimension, s: Signature) {
    forall i :: 0 <= i < |records| ==> MeetsSignatureOnce(records[i], d, s)
  }

  /** What a record contributes under a signature that it meets exactly once. */
  function Choice(r: Campaign, d: Dimension, s: Signature): Chosen
    requires MeetsSignatureOnce(r, d, s)
  {
    var k := MatchIndices(OffersOf(r, d), s)[0];
    assert k in MatchIndices(OffersOf(r, d), s);
    Chosen(OffersOf(r, d)[k], EvidenceIds(r, Tail(d) + "/" + Numeral(k)))
  }

  function Choices(records: seq<Campaign>, d: Dimension, s: Signature): (chosen: seq<Chosen>)
    requires MeetsOnce(records, d, s)
    ensures |chosen| == |records|
    ensures forall i :: 0 <= i < |records| ==> chosen[i] == Choice(records[i], d, s)
  {
    seq(|records|, i requires 0 <= i < |records| => Choice(records[i], d, s))
  }

  function MaxMonths(terms: seq<Term>): int
    requires terms != []
  {
    if |terms| == 1 then terms[0].maximumMonths
    else
      var rest := MaxMonths(terms[1..]);
      if terms[0].maximumMonths >= rest then terms[0].maximumMonths else rest
  }

  function LongestTerm(r: Campaign): Chosen
    requires r.terms != []
  {
    Chosen(Offer(TermSig, false, Some(MaxMonths(r.terms) as real), Some(Months)),
           EvidenceIds(r, Tail(TermDimension)))
  }

  function LongestTerms(records: seq<Campaign>): (chosen: seq<Chosen>)
    requires forall r :: r in records ==> r.terms != []
    ensures |chosen| == |records|
    ensures forall i :: 0 <= i < |records| ==> chosen[i] == LongestTerm(records[i])
  {
    seq(|records|, i requires 0 <= i < |records| => LongestTerm(records[i]))
  }

  function Unproven(records: seq<Campaign>, chosen: seq<Chosen>): set<string>
    requires |records| == |chosen|
  {
    set i | 0 <= i < |records| && chosen[i].evidence == [] :: records[i].id
  }

  /** A rate or term ranks the higher the better by its kind; a fee the lower, a reward the higher. */
  predicate HigherIsBetter(d: Dimension, s: Signature) {
    match d
    case RateDimension => s.RateSig? && HigherRateIsBetter(s.kind)
    case FeeDimension => false
    case _ => true
  }

  function Proven(records: seq<Campaign>, d: Dimension, higherIsBetter: bool, chosen: seq<Chosen>): Result<Selection, Rejection>
    requires |records| == |chosen|
  {
    if Unproven(records, chosen) != {} then
      Failure(ForOwnAndPeers(Unproven(records, chosen), EvidenceMissingReason(d), PeerEvidenceMissingReason(d)))
    else Success(Selection(higherIsBetter, chosen))
  }

  function TheOne(s: set<Signature>): (x: Signature)
    requires |s| == 1
    ensures s == {x}
  {
    Singleton(s);
    var x :| x in s;
    x
  }

  lemma Singleton(s: set<Signature>)
    requires |s| == 1
    ensures exists x :: s == {x}
  {
    var x :| x in s;
    assert |s - {x}| == 0;
    assert s == {x};
  }

  /** Rates, fees and rewards: one common signature, met exactly once by every record. */
  function SelectCommon(records: seq<Campaign>, d: Dimension): Result<Selection, Rejection>
    requires records != []
  {
    var common := Common(AllOffers(records, d));
    if common == {} then Failure(ForAll(MismatchReason(records, d)))
    else if |common| != 1 then Failure(ForAll(ManySignatures(d)))
    else
      var s := TheOne(common);
      if !MeetsOnce(records, d, s) then Failure(ForAll(ManyValues(d)))
      else Proven(records, d, HigherIsBetter(d, s), Choices(records, d, s))
  }

  lemma NoneWithout(records: seq<Campaign>, d: Dimension)
    requires Without(records, d) == {}
    ensures forall r :: r in records ==> !Lacks(r, d)
  {
    forall r | r in records
      ensures !Lacks(r, d)
    {
      assert Lacks(r, d) ==> r.id in Without(records, d);
    }
  }

  function Select(records: seq<Campaign>, d: Dimension): Result<Selection, Rejection>
    requires records != [] && d != Eligibility
  {
    if Without(records, d) != {} then
      Failure(ForOwnAndPeers(Without(records, d), MissingReason(d), PeerMissingReason(d)))
    else if FirstIssue(records, d).Some? then Failure(ForAll(FirstIssue(records, d).value))
    else if d == TermDimension then
      NoneWithout(records, d);
      Proven(records, d, true, LongestTerms(records))
    else SelectCommon(records, d)
  }

  // ----- outcomes

  function Rejected(r: Campaign, d: Dimension, reason: Reason): Outcome {
    Outcome(r.id, d, false, None, None, None, reason, [])
  }

  function RejectionOf(r: Campaign, rejection: Rejection): Reason {
    match rejection
    case ForAll(reason) => reason
    case ForOwnAndPeers(affected, own, peer) => if r.id in affected then own else peer
  }

  function Reject(records: seq<Campaign>, d: Dimension, rejection: Rejection): seq<Outcome> {
    seq(|records|, i requires 0 <= i < |records| => Rejected(records[i], d, RejectionOf(records[i], rejection)))
  }

  predicate Rankable(chosen: seq<Chosen>) {
    forall i :: 0 <= i < |chosen| ==> !chosen[i].offer.waived ==> chosen[i].offer.value.Some?
  }

  function KeyOf(c: Chosen): Key
    requires !c.offer.waived ==> c.offer.value.Some?
  {
    RankKey(c.offer.waived, c.offer.value)
  }

  function Keys(chosen: seq<Chosen>): (ks: seq<Key>)
    requires Rankable(chosen)
    ensures |ks| == |chosen|
    ensures forall i :: 0 <= i < |chosen| ==> ks[i] == KeyOf(chosen[i])
  {
    seq(|chosen|, i requires 0 <= i < |chosen| => KeyOf(chosen[i]))
  }

  function RankAll(records: seq<Campaign>, d: Dimension, sel: Selection): seq<Outcome>
    requires |sel.chosen| == |records| && Rankable(sel.chosen)
  {
    seq(|records|, i requires 0 <= i < |records| =>
      assert Keys(sel.chosen)[i] == KeyOf(sel.chosen[i]);
      Outcome(
        records[i].id, d, true,
        Some(RankOf(KeyOf(sel.chosen[i]), Keys(sel.chosen), sel.higherIsBetter)),
        sel.chosen[i].offer.value, sel.chosen[i].offer.unit,
        if sel.higherIsBetter then RankedHigherIsBetter else RankedLowerIsBetter,
        sel.chosen[i].evidence))
  }

  function EligibilityOutcomes(records: seq<Campaign>): seq<Outcome> {
    var missing := set r | r in records && EvidenceIds(r, Tail(Eligibility)) == [] :: r.id;
    if missing != {} then
      Reject(records, Eligibility,
             ForOwnAndPeers(missing, EligibilityEvidenceMissing, PeerEligibilityEvidenceMissing))
    else
      seq(|records|, i requires 0 <= i < |records| =>
        Outcome(records[i].id, Eligibility, true, None, None, None, EligibilityContextCompatible,
                EvidenceIds(records[i], Tail(Eligibility))))
  }

  lemma {:induction false} OffersAreEntries(entries: seq<Entry>)
    requires FirstFailure(entries).None?
    ensures |Offers(entries)| == |entries|
    ensures forall i :: 0 <= i < |entries| ==> entries[i] == Success(Offers(entries)[i])
  {
    if entries != [] {
      OffersAreEntries(entries[1..]);
    }
  }

  /** Whatever the entries, an offer among them is a waiver exactly when its signature says so, and
      has a figure otherwise. */
  lemma {:induction false} OffersAreProper(r: Campaign, d: Dimension, entries: seq<Entry>)
    requires forall e :: e in entries ==> e in Entries(r, d)
    ensures Proper(Offers(entries))
  {
    if entries != [] {
      OffersAreProper(r, d, entries[1..]);
      assert entries[0] in Entries(r, d);
    }
  }

  lemma AllOffersProper(records: seq<Campaign>, d: Dimension)
    ensures AllProper(AllOffers(records, d))
  {
    forall i | 0 <= i < |records|
      ensures Proper(AllOffers(records, d)[i])
    {
      OffersAreProper(records[i], d, Entries(records[i], d));
    }
  }

  lemma SelectionIsRankable(records: seq<Campaign>, d: Dimension)
    requires records != [] && d != Eligibility
    requires Select(records, d).Success?
    ensures |Select(records, d).value.chosen| == |records|
    ensures Rankable(Select(records, d).value.chosen)
  {
    if d != TermDimension {
      ChoicesRankable(records, d, TheOne(Common(AllOffers(records, d))));
    }
  }

  lemma ChoicesRankable(records: seq<Campaign>, d: Dimension, s: Signature)
    requires d != Eligibility && d != TermDimension && MeetsOnce(records, d, s)
    ensures Rankable(Choices(records, d, s))
  {
    forall i | 0 <= i < |records|
      ensures var o := Choices(records, d, s)[i].offer; !o.waived ==> o.value.Some?
    {
      OffersAreProper(records[i], d, Entries(records[i], d));
      assert Choice(records[i], d, s).offer in OffersOf(records[i], d);
    }
  }

  function DimensionOutcomes(records: seq<Campaign>, d: Dimension): seq<Outcome>
    requires records != []
  {
    if d == Eligibility then EligibilityOutcomes(records)
    else
      match Select(records, d)
      case Failure(rejection) => Reject(records, d, rejection)
      case Success(sel) => SelectionIsRankable(records, d); RankAll(records, d, sel)
  }
}
