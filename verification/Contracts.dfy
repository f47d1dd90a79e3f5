/** The campaign record as the comparison engine reads it. Labels that the engine only ever uses in
    canonical form (rate basis, reward program) are held in that form. Days are day numbers. */
module Contracts {
  import opened Wrappers

  datatype RecordStatus = Validated | NeedsReview | Rejected

  datatype ProductFamily = Financing | Card | Investment | ParticipationAccount | OtherFamily | UnknownFamily

  datatype SalesChannel = AllChannels | Digital | Mobile | Web | Branch | UnknownChannel

  datatype EvidenceStatus = Stated | Inferred | Unknown | Ambiguous

  datatype RateKind =
    | FinancingProfitRate | AnnualCostRate | LtvRatio | ProfitShareDistributionRate
    | HistoricalReturnRate | DiscountRate | RewardRate | UnknownRate

  datatype RatePeriod = Monthly | Annual | TermTotal | UnspecifiedPeriod

  datatype GrossNet = Gross | Net | UnspecifiedGrossNet

  datatype FeeKind = Allocation | AnnualFee | MonthlyFee | Transaction | EarlyExit | OtherFee | UnknownFee

  datatype FeeBasis = OneTime | PerMonth | PerYear | PerTransaction | PercentOfAmount | UnspecifiedFeeBasis

  datatype RewardKind = MoneyReward | Points | Discount | FreeService | OtherReward

  datatype RewardBasis = CampaignTotal | PerCustomer | PerUse | PerMonthReward | UnspecifiedRewardBasis

  /** An amount: its value, and the exact text that value is written with. */
  datatype Money = Money(amount: real, text: string, currency: string)

  datatype Rate = Rate(
    valuePercent: real, kind: RateKind, period: RatePeriod, grossNet: GrossNet,
    referenceStartsOn: Option<int>, referenceEndsOn: Option<int>,
    termMonths: Option<int>, basisLabel: Option<string>, status: EvidenceStatus)

  datatype Term = Term(maximumMonths: int, status: EvidenceStatus)

  datatype Fee = Fee(
    money: Option<Money>, rate: Option<Rate>, kind: FeeKind, basis: FeeBasis, waived: bool, status: EvidenceStatus)

  datatype Reward = Reward(
    kind: RewardKind, basis: RewardBasis, programName: Option<string>,
    money: Option<Money>, rate: Option<Rate>, points: Option<real>,
    minimumSpend: Option<Money>, maximumMoney: Option<Money>, maximumPoints: Option<string>,
    status: EvidenceStatus)

  datatype Validity = Validity(startsOn: Option<int>, endsOn: Option<int>, status: EvidenceStatus)

  datatype Context = Context(
    currency: Option<string>, segments: seq<string>, channel: SalesChannel,
    newCustomerOnly: Option<bool>, mechanism: Option<string>, secured: Option<bool>)

  /** An aware timestamp: the instant in microseconds and the offset of its zone. */
  datatype DateTime = DateTime(instant: int, offset: int)

  datatype Evidence = Evidence(id: string, pointer: string)

  datatype Campaign = Campaign(
    id: string, status: RecordStatus, family: ProductFamily, context: Context,
    observedAt: DateTime, validity: Option<Validity>,
    rates: seq<Rate>, terms: seq<Term>, fees: seq<Fee>, rewards: seq<Reward>,
    evidence: seq<Evidence>)

  const DAY_MICROS := 86_400_000_000

  /** The calendar day a timestamp shows in its own zone. */
  function LocalDay(t: DateTime): int {
    (t.instant + t.offset) / DAY_MICROS
  }

  datatype AsOf = Missing | OnDay(day: int) | At(time: DateTime) | NaiveAt(day: int)

  predicate Unclear(s: EvidenceStatus) {
    s == Unknown || s == Ambiguous
  }

  /** The reason codes of the rule set. */
  datatype Reason =
    | RecordNotValidated
    | ProductFamilyUnknown | ProductFamilyMismatch
    | CurrencyUnknown | CurrencyMismatch
    | SegmentUnknown | SegmentMismatch
    | ChannelUnknown | ChannelMismatch
    | NewCustomerUnknown | NewCustomerMismatch
    | MechanismUnknown | MechanismMismatch
    | SecurityUnknown | SecurityMismatch
    | AsOfRequired | NotObservedAsOf | ValidityUnknown | CampaignNotActiveAsOf
    | RateMissing | PeerRateMissing | RateEvidenceMissing | PeerRateEvidenceMissing
    | RateKindUnknown | RatePeriodUnknown | RateBasisUnknown | RateTermContextUnknown
    | RateGrossNetBasisUnknown | RateReferenceWindowUnknown
    | RateKindMismatch | RatePeriodMismatch | RateBasisMismatch
    | MultipleRateSignatures | MultipleRateValuesForSignature
    | TermMissing | PeerTermMissing | TermEvidenceMissing | PeerTermEvidenceMissing | TermAmbiguous
    | FeeMissing | PeerFeeMissing | FeeEvidenceMissing | PeerFeeEvidenceMissing
    | FeeKindUnknown | FeeBasisUnknown | FeeNotNumeric | FeeRateContextUnknown
    | FeeKindMismatch | FeeBasisMismatch | FeeCurrencyMismatch | FeeValueTypeMismatch
    | MultipleFeeSignatures
    | RewardMissing | PeerRewardMissing | RewardEvidenceMissing | PeerRewardEvidenceMissing
    | RewardBasisUnknown | RewardProgramUnknown | RewardNotNumeric | RewardRateContextUnknown
    | RewardKindMismatch | RewardBasisMismatch | RewardProgramMismatch | RewardContextMismatch
    | MultipleRewardSignatures
    | EligibilityEvidenceMissing | PeerEligibilityEvidenceMissing
    | EligibilityContextCompatible | RankedLowerIsBetter | RankedHigherIsBetter
}
