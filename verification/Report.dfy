/** The comparison as it is computed, and the report over all dimensions. */
module Report {
  import opened Wrappers
  import opened Contracts
  import opened Signatures
  import opened Ranking
  import opened Ordering
  import opened Comparison
  import opened Digits
  import Gate

  datatype CompareError = TooFewCampaigns | DuplicateIds | NoDimensions | NaiveAsOf

  datatype ComparisonReport = ComparisonReport(asOf: AsOf, items: seq<Outcome>, notes: seq<Gate.Note>)

  // ----- one dimension, step by step

  lemma NoWaiversMeansIntersection(all: seq<seq<Offer>>, common: set<Signature>)
    requires all != [] && AllProper(all)
    requires forall i, o :: 0 <= i < |all| && o in all[i] ==> !o.waived
    requires common == set s | s in PricedSet(all[0]) && forall i :: 0 <= i < |all| ==> s in PricedSet(all[i])
    ensures common == Common(all)
  {
    forall s
      ensures s in common <==> s in Common(all)
    {
      forall i | 0 <= i < |all|
        ensures s in PricedSet(all[i]) <==> Prices(all[i], s)
        ensures !Waives(all[i], s)
      {
        SetsDecide(all[i], s);
      }
      CommonIsComplete(all, s);
      assert s in common <==> s in PricedSet(all[0]) && forall i :: 0 <= i < |all| ==> s in PricedSet(all[i]);
      if forall i :: 0 <= i < |all| ==> Prices(all[i], s) {
        assert Prices(all[0], s);
      }
    }
  }

  lemma OffersKeepShape(r: Campaign, d: Dimension, entries: seq<Entry>)
    requires forall e :: e in entries ==> e in Entries(r, d)
    ensures d == FeeDimension ==> forall o :: o in Offers(entries) ==> o.signature.FeeSig?
    ensures d != FeeDimension ==> forall o :: o in Offers(entries) ==> !o.waived
    decreases |entries|
  {
    if entries != [] {
      OffersKeepShape(r, d, entries[1..]);
      assert entries[0] in Entries(r, d);
    }
  }

  /** The loop over every stated value, which stops at the first issue. */
  method FindIssue(records: seq<Campaign>, d: Dimension) returns (issue: Option<Reason>)
    ensures issue == FirstIssue(records, d)
  {
    for i := 0 to |records|
      invariant FirstIssue(records, d) == FirstIssue(records[i..], d)
    {
      var entries := Entries(records[i], d);
      for j := 0 to |entries|
        invariant FirstFailure(entries) == FirstFailure(entries[j..])
        invariant FirstIssue(records, d) == FirstIssue(records[i..], d)
      {
        if entries[j].Failure? {
          return Some(entries[j].error);
        }
      }
    }
    issue := None;
  }

  /** The shape the rate, fee and reward comparisons share. */
  method SelectValues(records: seq<Campaign>, d: Dimension) returns (r: Result<Selection, Rejection>)
    requires records != [] && d != Eligibility && d != TermDimension
    ensures r == Select(records, d)
  {
    var missing := set r | r in records && Lacks(r, d) :: r.id;
    if missing != {} {
      return Failure(ForOwnAndPeers(missing, MissingReason(d), PeerMissingReason(d)));
    }
    var issue := FindIssue(records, d);
    if issue.Some? {
      return Failure(ForAll(issue.value));
    }
    var all := AllOffers(records, d);
    var common := CommonOffers(records, d, all);
    if common == {} {
      return Failure(ForAll(MismatchReason(records, d)));
    }
    if |common| != 1 {
      return Failure(ForAll(ManySignatures(d)));
    }
    r := ChooseUnder(records, d, TheOne(common));
  }

  method CommonOffers(records: seq<Campaign>, d: Dimension, all: seq<seq<Offer>>) returns (common: set<Signature>)
    requires records != [] && all == AllOffers(records, d)
    ensures common == Common(all)
  {
    AllOffersProper(records, d);
    forall i | 0 <= i < |all|
      ensures d == FeeDimension ==> forall o :: o in all[i] ==> o.signature.FeeSig?
      ensures d != FeeDimension ==> forall o :: o in all[i] ==> !o.waived
    {
      OffersKeepShape(records[i], d, Entries(records[i], d));
    }
    if d == FeeDimension {
      common := CommonFeeSignatures(all);
    } else {
      common := set s | s in PricedSet(all[0]) && forall i :: 0 <= i < |all| ==> s in PricedSet(all[i]);
      NoWaiversMeansIntersection(all, common);
    }
  }

  lemma UnprovenGrows(records: seq<Campaign>, chosen: seq<Chosen>, c: Chosen)
    requires |chosen| < |records|
    ensures Unproven(records[..|chosen| + 1], chosen + [c]) ==
              Unproven(records[..|chosen|], chosen) + (if c.evidence == [] then {records[|chosen|].id} else {})
  {
    var n := |chosen|;
    var before, after := Unproven(records[..n], chosen), Unproven(records[..n + 1], chosen + [c]);
    forall id
      ensures id in after <==> id in before || (c.evidence == [] && id == records[n].id)
    {
      if id in before {
        var i :| 0 <= i < n && chosen[i].evidence == [] && records[..n][i].id == id;
        assert (chosen + [c])[i].evidence == [] && records[..n + 1][i].id == id;
      }
      if c.evidence == [] {
        assert (chosen + [c])[n].evidence == [] && records[..n + 1][n].id == records[n].id;
      }
    }
  }

  predicate Picked(r: Campaign, d: Dimension, s: Signature, c: Chosen) {
    MeetsSignatureOnce(r, d, s) && c == Choice(r, d, s)
  }

  ghost predicate PickedSoFar(records: seq<Campaign>, d: Dimension, s: Signature, selected: seq<Chosen>) {
    |selected| <= |records| && forall j :: 0 <= j < |selected| ==> Picked(records[j], d, s, selected[j])
  }

  lemma AllPicked(records: seq<Campaign>, d: Dimension, s: Signature, selected: seq<Chosen>)
    requires PickedSoFar(records, d, s, selected) && |selected| == |records|
    ensures MeetsOnce(records, d, s) && selected == Choices(records, d, s)
  {
    assert forall j :: 0 <= j < |records| ==> Picked(records[j], d, s, selected[j]);
  }

  method ChooseOne(r: Campaign, d: Dimension, s: Signature) returns (c: Option<Chosen>)
    ensures c.Some? <==> MeetsSignatureOnce(r, d, s)
    ensures c.Some? ==> Picked(r, d, s, c.value)
  {
    var offers := OffersOf(r, d);
    var matches := MatchIndices(offers, s);
    if |matches| != 1 {
      return None;
    }
    var index := matches[0];
    assert index in matches;
    c := Some(Chosen(offers[index], EvidenceIds(r, Tail(d) + "/" + Numeral(index))));
  }

  /** The records whose chosen value has no evidence, gathered beside the values. */
  method Gather(records: seq<Campaign>, selected: seq<Chosen>) returns (unproven: set<string>)
    requires |records| == |selected|
    ensures unproven == Unproven(records, selected)
  {
    unproven := {};
    for i := 0 to |records|
      invariant unproven == Unproven(records[..i], selected[..i])
    {
      UnprovenGrows(records, selected[..i], selected[i]);
      assert selected[..i + 1] == selected[..i] + [selected[i]];
      if selected[i].evidence == [] {
        unproven := unproven + {records[i].id};
      }
    }
    assert records[..|records|] == records && selected[..|selected|] == selected;
  }

  lemma PickedGrows(records: seq<Campaign>, d: Dimension, s: Signature, selected: seq<Chosen>, c: Chosen)
    requires PickedSoFar(records, d, s, selected) && |selected| < |records|
    requires Picked(records[|selected|], d, s, c)
    ensures PickedSoFar(records, d, s, selected + [c])
  {
    forall j | 0 <= j < |selected| + 1
      ensures Picked(records[j], d, s, (selected + [c])[j])
    {
      if j < |selected| {
        assert (selected + [c])[j] == selected[j];
      }
    }
  }

  lemma NonePicked(records: seq<Campaign>, d: Dimension, s: Signature, i: nat)
    requires i < |records| && !MeetsSignatureOnce(records[i], d, s)
    ensures !MeetsOnce(records, d, s)
  {
  }

  method ChooseEach(records: seq<Campaign>, d: Dimension, s: Signature) returns (r: Option<seq<Chosen>>)
    ensures r.Some? <==> MeetsOnce(records, d, s)
    ensures r.Some? ==> r.value == Choices(records, d, s)
  {
    var selected: seq<Chosen> := [];
    for i := 0 to |records|
      invariant |selected| == i && PickedSoFar(records, d, s, selected)
    {
      var c := ChooseOne(records[i], d, s);
      if c.None? {
        NonePicked(records, d, s, i);
        return None;
      }
      PickedGrows(records, d, s, selected, c.value);
      selected := selected + [c.value];
    }
    AllPicked(records, d, s, selected);
    r := Some(selected);
  }

  method ChooseUnder(records: seq<Campaign>, d: Dimension, s: Signature)
    returns (r: Result<Selection, Rejection>)
    ensures !MeetsOnce(records, d, s) ==> r == Failure(ForAll(ManyValues(d)))
    ensures MeetsOnce(records, d, s) ==> r == Proven(records, d, HigherIsBetter(d, s), Choices(records, d, s))
  {
    var selected := ChooseEach(records, d, s);
    if selected.None? {
      return Failure(ForAll(ManyValues(d)));
    }
    var unproven := Gather(records, selected.value);
    if unproven != {} {
      return Failure(ForOwnAndPeers(unproven, EvidenceMissingReason(d), PeerEvidenceMissingReason(d)));
    }
    r := Success(Selection(HigherIsBetter(d, s), selected.value));
  }

  method SelectTerms(records: seq<Campaign>) returns (r: Result<Selection, Rejection>)
    requires records != []
    ensures r == Select(records, TermDimension)
  {
    var missing := set r | r in records && Lacks(r, TermDimension) :: r.id;
    if missing != {} {
      return Failure(ForOwnAndPeers(missing, TermMissing, PeerTermMissing));
    }
    var issue := FindIssue(records, TermDimension);
    if issue.Some? {
      return Failure(ForAll(issue.value));
    }
    forall r | r in records
      ensures r.terms != []
    {
      assert Lacks(r, TermDimension) ==> r.id in missing;
    }
    r := ChooseTerms(records);
  }

  method ChooseTerms(records: seq<Campaign>) returns (r: Result<Selection, Rejection>)
    requires forall r :: r in records ==> r.terms != []
    ensures r == Proven(records, TermDimension, true, LongestTerms(records))
  {
    var selected: seq<Chosen> := [];
    for i := 0 to |records|
      invariant |selected| == i
      invariant forall j :: 0 <= j < i ==> selected[j] == LongestTerm(records[j])
    {
      var longest := LongestMonths(records[i].terms);
      selected := selected + [Chosen(Offer(TermSig, false, Some(longest as real), Some(Months)),
                                     EvidenceIds(records[i], Tail(TermDimension)))];
    }
    assert selected == LongestTerms(records);
    var unproven := Gather(records, selected);
    if unproven != {} {
      return Failure(ForOwnAndPeers(unproven, TermEvidenceMissing, PeerTermEvidenceMissing));
    }
    r := Success(Selection(true, selected));
  }

  method LongestMonths(terms: seq<Term>) returns (m: int)
    requires terms != []
    ensures m == MaxMonths(terms)
    ensures forall t :: t in terms ==> t.maximumMonths <= m
    ensures exists t :: t in terms && t.maximumMonths == m
  {
    var k := |terms| - 1;
    m := terms[k].maximumMonths;
    while k > 0
      invariant 0 <= k < |terms|
      invariant m == MaxMonths(terms[k..])
      invariant forall j :: k <= j < |terms| ==> terms[j].maximumMonths <= m
      invariant exists t :: t in terms && t.maximumMonths == m
    {
      k := k - 1;
      assert terms[k..][1..] == terms[k + 1..];
      if terms[k].maximumMonths >= m {
        m := terms[k].maximumMonths;
      }
    }
    assert terms[0..] == terms;
  }

  method CompareDimension(records: seq<Campaign>, d: Dimension) returns (out: seq<Outcome>)
    requires records != []
    ensures out == DimensionOutcomes(records, d)
  {
    if d == Eligibility {
      return EligibilityOutcomes(records);
    }
    var selection: Result<Selection, Rejection>;
    if d == TermDimension {
      selection := SelectTerms(records);
    } else {
      selection := SelectValues(records, d);
    }
    if selection.Failure? {
      return Reject(records, d, selection.error);
    }
    SelectionIsRankable(records, d);
    out := RankAll(records, d, selection.value);
  }

  // ----- the report

  /** The dimensions in the order of their names. */
  const ALPHABETICAL: seq<Dimension> := [Eligibility, FeeDimension, RateDimension, RewardDimension, TermDimension]

  function Filtered(order: seq<Dimension>, asked: set<Dimension>): seq<Dimension> {
    if order == [] then []
    else (if order[0] in asked then [order[0]] else []) + Filtered(order[1..], asked)
  }

  function OrderedDimensions(asked: seq<Dimension>): seq<Dimension> {
    Filtered(ALPHABETICAL, set d | d in asked)
  }

  function Id(r: Campaign): string {
    r.id
  }

  function OrderedRecords(records: seq<Campaign>): seq<Campaign> {
    SortBy(records, Id)
  }

  function Ids(records: seq<Campaign>): set<string> {
    set r | r in records :: r.id
  }

  /** What one dimension reports, given what the gate decided. */
  function Block(records: seq<Campaign>, d: Dimension, gate: Option<Reason>): seq<Outcome>
    requires records != []
  {
    if gate.Some? then Reject(records, d, ForAll(gate.value)) else DimensionOutcomes(records, d)
  }

  function Items(records: seq<Campaign>, dims: seq<Dimension>, gate: Option<Reason>): seq<Outcome>
    requires records != []
  {
    if dims == [] then [] else Items(records, dims[..|dims| - 1], gate) + Block(records, dims[|dims| - 1], gate)
  }

  function CompareOrdered(ordered: seq<Campaign>, dims: seq<Dimension>, asOf: AsOf): Result<ComparisonReport, CompareError> {
    if |ordered| < 2 then Failure(TooFewCampaigns)
    else if |Ids(ordered)| != |ordered| then Failure(DuplicateIds)
    else if dims == [] then Failure(NoDimensions)
    else
      var gate := Gate.GateOutcome(ordered, asOf);
      if gate.Failure? then Failure(NaiveAsOf)
      else Success(ComparisonReport(asOf, Items(ordered, dims, gate.value.0), gate.value.1))
  }

  function Compare(records: seq<Campaign>, asked: seq<Dimension>, asOf: AsOf): Result<ComparisonReport, CompareError> {
    CompareOrdered(OrderedRecords(records), OrderedDimensions(asked), asOf)
  }

  method CompareCampaigns(records: seq<Campaign>, asked: seq<Dimension>, asOf: AsOf)
    returns (r: Result<ComparisonReport, CompareError>)
    ensures r == Compare(records, asked, asOf)
  {
    var ordered := OrderedRecords(records);
    if |ordered| < 2 {
      return Failure(TooFewCampaigns);
    }
    if |Ids(ordered)| != |ordered| {
      return Failure(DuplicateIds);
    }
    var dims := OrderedDimensions(asked);
    if dims == [] {
      return Failure(NoDimensions);
    }
    var gate := Gate.FirstGlobalIncompatibility(ordered, asOf);
    if gate.Failure? {
      return Failure(NaiveAsOf);
    }
    var items: seq<Outcome> := [];
    for k := 0 to |dims|
      invariant items == Items(ordered, dims[..k], gate.value.0)
    {
      assert dims[..k + 1][..k] == dims[..k];
      if gate.value.0.Some? {
        items := items + Reject(ordered, dims[k], ForAll(gate.value.0.value));
      } else {
        var block := CompareDimension(ordered, dims[k]);
        items := items + block;
      }
    }
    assert dims[..|dims|] == dims;
    r := Success(ComparisonReport(asOf, items, gate.value.1));
  }

  // ----- reasons for a pair

  function Deduplicated(rs: seq<Reason>): seq<Reason> {
    if rs == [] then []
    else
      var init := Deduplicated(rs[..|rs| - 1]);
      if rs[|rs| - 1] in init then init else init + [rs[|rs| - 1]]
  }

  function RejectionReasons(items: seq<Outcome>): (rs: seq<Reason>)
    ensures forall r :: r in rs <==> exists o :: o in items && !o.comparable && o.reason == r
  {
    if items == [] then []
    else
      var last := items[|items| - 1];
      RejectionReasons(items[..|items| - 1]) + (if last.comparable then [] else [last.reason])
  }

  function CompatibilityReasons(left: Campaign, right: Campaign, d: Dimension, asOf: AsOf): Result<seq<Reason>, CompareError> {
    match Compare([left, right], [d], asOf)
    case Failure(e) => Failure(e)
    case Success(report) => Success(Deduplicated(RejectionReasons(report.items)))
  }
}
