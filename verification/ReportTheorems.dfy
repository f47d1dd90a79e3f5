/** What every comparison report satisfies, whatever the records, dimensions and their order: it
    forgets the order of its inputs; it is complete, with one outcome for each record and distinct
    dimension; each dimension is accepted with evidence or refused as a whole; ranks are dense, use
    1 to k, and put a stated waiver first; and ranked fees share their context, an all-waived
    ranking hiding no price. */
module ReportTheorems {
  import opened Wrappers
  import opened Contracts
  import opened Signatures
  import opened Ranking
  import opened Ordering
  import opened Comparison
  import opened Report
  import Gate

  // ----- order independence

  lemma IdsAppend(init: seq<Campaign>, last: Campaign)
    ensures Ids(init + [last]) == Ids(init) + {last.id}
    ensures KeysDistinct(init + [last], Id) <==> KeysDistinct(init, Id) && last.id !in Ids(init)
  {
    var xs := init + [last];
    assert xs[|init|] == last;
    assert forall i :: 0 <= i < |init| ==> xs[i] == init[i] && init[i].id in Ids(init);
    if last.id in Ids(init) {
      var r :| r in init && r.id == last.id;
      var i :| 0 <= i < |init| && init[i] == r;
      assert Id(xs[i]) == Id(xs[|init|]);
    } else if KeysDistinct(init, Id) {
      forall i, j | 0 <= i < j < |xs|
        ensures Id(xs[i]) != Id(xs[j])
      {
        if j < |init| {
          assert Id(init[i]) != Id(init[j]);
        }
      }
    }
    if KeysDistinct(xs, Id) {
      forall i, j | 0 <= i < j < |init|
        ensures Id(init[i]) != Id(init[j])
      {
        assert Id(xs[i]) != Id(xs[j]);
      }
    }
  }

  lemma {:induction false} DistinctIds(xs: seq<Campaign>)
    ensures |Ids(xs)| <= |xs|
    ensures |Ids(xs)| == |xs| <==> KeysDistinct(xs, Id)
  {
    if xs != [] {
      var init, last := xs[..|xs| - 1], xs[|xs| - 1];
      assert xs == init + [last];
      DistinctIds(init);
      IdsAppend(init, last);
    }
  }

  lemma SameElements(a: seq<Campaign>, b: seq<Campaign>)
    requires multiset(a) == multiset(b)
    ensures |a| == |b|
    ensures Ids(a) == Ids(b)
  {
    assert |multiset(a)| == |multiset(b)|;
    forall r
      ensures r in a <==> r in b
    {
      assert r in a <==> r in multiset(a);
      assert r in b <==> r in multiset(b);
    }
  }

  /** Permuting the records, and permuting or repeating the dimensions, changes nothing at all. */
  lemma ReportForgetsOrder(
    a: seq<Campaign>, b: seq<Campaign>, asked: seq<Dimension>, again: seq<Dimension>, asOf: AsOf)
    requires multiset(a) == multiset(b)
    requires forall d :: d in asked <==> d in again
    ensures Compare(a, asked, asOf) == Compare(b, again, asOf)
  {
    var oa, ob := OrderedRecords(a), OrderedRecords(b);
    assert (set d | d in asked) == (set d | d in again);
    SameElements(oa, ob);
    DistinctIds(oa);
    if |Ids(oa)| == |oa| {
      SortForgetsOrder(a, b, Id);
      assert oa == ob;
    } else {
      BadIdsRefused(oa, ob, OrderedDimensions(asked), OrderedDimensions(again), asOf);
    }
  }

  lemma BadIdsRefused(a: seq<Campaign>, b: seq<Campaign>, d: seq<Dimension>, e: seq<Dimension>, asOf: AsOf)
    requires |a| == |b| && Ids(a) == Ids(b) && |Ids(a)| != |a|
    ensures CompareOrdered(a, d, asOf) == CompareOrdered(b, e, asOf)
  {
  }

  /** The rejection codes of a pair do not depend on which of the two comes first. */
  lemma CompatibilityReasonsSymmetric(left: Campaign, right: Campaign, d: Dimension, asOf: AsOf)
    ensures CompatibilityReasons(left, right, d, asOf) == CompatibilityReasons(right, left, d, asOf)
  {
    ReportForgetsOrder([left, right], [right, left], [d], [d], asOf);
  }

  // ----- completeness

  lemma {:induction false} FilteredExact(order: seq<Dimension>, asked: set<Dimension>)
    requires forall i, j :: 0 <= i < j < |order| ==> order[i] != order[j]
    ensures forall d :: d in Filtered(order, asked) <==> d in order && d in asked
    ensures forall i, j :: 0 <= i < j < |Filtered(order, asked)| ==>
              Filtered(order, asked)[i] != Filtered(order, asked)[j]
  {
    if order != [] {
      FilteredExact(order[1..], asked);
    }
  }

  lemma DimensionsExact(asked: seq<Dimension>)
    ensures forall d :: d in OrderedDimensions(asked) <==> d in asked
    ensures forall i, j :: 0 <= i < j < |OrderedDimensions(asked)| ==>
              OrderedDimensions(asked)[i] != OrderedDimensions(asked)[j]
  {
    FilteredExact(ALPHABETICAL, set d | d in asked);
    forall d: Dimension
      ensures d in ALPHABETICAL
    {
      match d {
        case Eligibility => assert ALPHABETICAL[0] == d;
        case FeeDimension => assert ALPHABETICAL[1] == d;
        case RateDimension => assert ALPHABETICAL[2] == d;
        case RewardDimension => assert ALPHABETICAL[3] == d;
        case TermDimension => assert ALPHABETICAL[4] == d;
      }
    }
  }

  predicate Refused(o: Outcome) {
    !o.comparable && o.rank.None? && o.value.None? && o.unit.None? && o.evidence == []
  }

  predicate Accepted(o: Outcome) {
    o.comparable && o.evidence != [] && (o.rank.None? <==> o.dimension == Eligibility)
  }

  /** One outcome a record, in record order, and all of them accepted with evidence or all refused. */
  lemma BlockIsUniform(records: seq<Campaign>, d: Dimension, gate: Option<Reason>)
    requires records != []
    ensures |Block(records, d, gate)| == |records|
    ensures forall i :: 0 <= i < |records| ==>
              Block(records, d, gate)[i].campaign == records[i].id && Block(records, d, gate)[i].dimension == d
    ensures (forall i :: 0 <= i < |records| ==> Accepted(Block(records, d, gate)[i]))
         || (forall i :: 0 <= i < |records| ==> Refused(Block(records, d, gate)[i]))
  {
    if gate.None? {
      if d == Eligibility {
        EligibilityUniform(records);
      } else if Select(records, d).Success? {
        SelectionIsRankable(records, d);
        SelectionHasEvidence(records, d, Select(records, d).value);
      }
    }
  }

  lemma EligibilityUniform(records: seq<Campaign>)
    ensures |EligibilityOutcomes(records)| == |records|
    ensures (forall i :: 0 <= i < |records| ==> Accepted(EligibilityOutcomes(records)[i]))
         || (forall i :: 0 <= i < |records| ==> Refused(EligibilityOutcomes(records)[i]))
  {
    var missing := set r | r in records && EvidenceIds(r, Tail(Eligibility)) == [] :: r.id;
    if missing == {} {
      forall i | 0 <= i < |records|
        ensures Accepted(EligibilityOutcomes(records)[i])
      {
        assert EvidenceIds(records[i], Tail(Eligibility)) == [] ==> records[i].id in missing;
      }
    }
  }

  lemma SelectionHasEvidence(records: seq<Campaign>, d: Dimension, sel: Selection)
    requires records != [] && d != Eligibility && Select(records, d) == Success(sel)
    ensures |sel.chosen| == |records|
    ensures forall i :: 0 <= i < |records| ==> sel.chosen[i].evidence != []
  {
    SelectionIsRankable(records, d);
    SelectionIsProven(records, d, sel);
    forall i | 0 <= i < |records|
      ensures sel.chosen[i].evidence != []
    {
      UnprovenHas(records, sel.chosen, i);
    }
  }

  lemma SelectionIsProven(records: seq<Campaign>, d: Dimension, sel: Selection)
    requires records != [] && d != Eligibility && Select(records, d) == Success(sel)
    ensures |sel.chosen| == |records| && Unproven(records, sel.chosen) == {}
  {
    if d == TermDimension {
      NoneWithout(records, d);
      ProvenIsProven(records, d, true, LongestTerms(records), sel);
    } else {
      var s := TheOne(Common(AllOffers(records, d)));
      ProvenIsProven(records, d, HigherIsBetter(d, s), Choices(records, d, s), sel);
    }
  }

  lemma ProvenIsProven(records: seq<Campaign>, d: Dimension, higher: bool, chosen: seq<Chosen>, sel: Selection)
    requires |records| == |chosen| && Proven(records, d, higher, chosen) == Success(sel)
    ensures sel.chosen == chosen && Unproven(records, chosen) == {}
  {
  }

  lemma UnprovenHas(records: seq<Campaign>, chosen: seq<Chosen>, i: nat)
    requires |records| == |chosen| && i < |records|
    ensures chosen[i].evidence == [] ==> records[i].id in Unproven(records, chosen)
  {
  }

  lemma {:induction false} ItemsLength(records: seq<Campaign>, dims: seq<Dimension>, gate: Option<Reason>)
    requires records != []
    ensures |Items(records, dims, gate)| == |dims| * |records|
  {
    if dims != [] {
      ItemsLength(records, dims[..|dims| - 1], gate);
      BlockIsUniform(records, dims[|dims| - 1], gate);
      assert |dims| * |records| == (|dims| - 1) * |records| + |records|;
    }
  }

  lemma SliceBefore<T>(a: seq<T>, b: seq<T>, at: nat, n: nat)
    requires at + n <= |a|
    ensures (a + b)[at..at + n] == a[at..at + n]
  {
  }

  lemma SliceAfter<T>(a: seq<T>, b: seq<T>)
    ensures (a + b)[|a|..|a| + |b|] == b
  {
  }

  lemma ItemsSplit(records: seq<Campaign>, dims: seq<Dimension>, gate: Option<Reason>)
    requires records != [] && dims != []
    ensures var init, last := dims[..|dims| - 1], dims[|dims| - 1];
            && |Block(records, last, gate)| == |records|
            && |Items(records, init, gate)| == (|dims| - 1) * |records|
            && Items(records, dims, gate) == Items(records, init, gate) + Block(records, last, gate)
  {
    BlockIsUniform(records, dims[|dims| - 1], gate);
    ItemsLength(records, dims[..|dims| - 1], gate);
  }

  lemma {:induction false} ItemsAt(records: seq<Campaign>, dims: seq<Dimension>, gate: Option<Reason>, k: nat)
    requires records != [] && k < |dims|
    ensures 0 <= k * |records| <= k * |records| + |records| <= |Items(records, dims, gate)|
    ensures Items(records, dims, gate)[k * |records|..k * |records| + |records|] == Block(records, dims[k], gate)
  {
    var n := |records|;
    ItemsSplit(records, dims, gate);
    var before, block := Items(records, dims[..|dims| - 1], gate), Block(records, dims[|dims| - 1], gate);
    if k < |dims| - 1 {
      ItemsAt(records, dims[..|dims| - 1], gate, k);
      SliceBefore(before, block, k * n, n);
    } else {
      SliceAfter(before, block);
    }
  }

  ghost predicate About(o: Outcome, r: Campaign, d: Dimension) {
    o.campaign == r.id && o.dimension == d
  }

  lemma SplitIndex(x: nat, n: nat, m: nat) returns (k: nat, i: nat)
    requires n > 0 && x < m * n
    ensures k < m && i < n && x == k * n + i
  {
    k, i := x / n, x % n;
  }

  /** Every item of a report is the entry of one record in the block of one asked dimension. */
  lemma ItemIsABlockEntry(ordered: seq<Campaign>, dims: seq<Dimension>, gate: Option<Reason>, x: nat)
      returns (k: nat, i: nat)
    requires ordered != []
    requires x < |Items(ordered, dims, gate)|
    ensures k < |dims| && i < |ordered| && x == k * |ordered| + i
    ensures |Block(ordered, dims[k], gate)| == |ordered|
    ensures Items(ordered, dims, gate)[x] == Block(ordered, dims[k], gate)[i]
    ensures About(Items(ordered, dims, gate)[x], ordered[i], dims[k])
  {
    ItemsLength(ordered, dims, gate);
    k, i := SplitIndex(x, |ordered|, |dims|);
    BlockEntryIsAnItem(ordered, dims, gate, k, i);
  }

  lemma BlockAbout(ordered: seq<Campaign>, d: Dimension, gate: Option<Reason>, i: nat)
    requires i < |ordered|
    ensures |Block(ordered, d, gate)| == |ordered|
    ensures About(Block(ordered, d, gate)[i], ordered[i], d)
  {
    BlockIsUniform(ordered, d, gate);
  }

  lemma BlockEntryIsAnItem(ordered: seq<Campaign>, dims: seq<Dimension>, gate: Option<Reason>, k: nat, i: nat)
    requires ordered != []
    requires k < |dims| && i < |ordered|
    ensures |Block(ordered, dims[k], gate)| == |ordered|
    ensures 0 <= k * |ordered| + i < |Items(ordered, dims, gate)|
    ensures Items(ordered, dims, gate)[k * |ordered| + i] == Block(ordered, dims[k], gate)[i]
    ensures About(Block(ordered, dims[k], gate)[i], ordered[i], dims[k])
  {
    ItemsAt(ordered, dims, gate, k);
    BlockAbout(ordered, dims[k], gate, i);
    SliceIndex(Items(ordered, dims, gate), k * |ordered|, |ordered|, i);
  }

  lemma SliceIndex<T>(s: seq<T>, start: nat, n: nat, i: nat)
    requires start + n <= |s| && i < n
    ensures s[start..start + n][i] == s[start + i]
  {
  }

  /** Among blocks of distinct dimensions over records with distinct ids, exactly one item is about
      a given record and dimension. */
  lemma OneItemAbout(ordered: seq<Campaign>, dims: seq<Dimension>, gate: Option<Reason>, i: nat, k: nat)
    requires KeysDistinct(ordered, Id)
    requires forall a, b :: 0 <= a < b < |dims| ==> dims[a] != dims[b]
    requires i < |ordered| && k < |dims|
    ensures var items := Items(ordered, dims, gate);
            exists x :: 0 <= x < |items| && About(items[x], ordered[i], dims[k])
              && forall y :: 0 <= y < |items| && About(items[y], ordered[i], dims[k]) ==> y == x
  {
    var items := Items(ordered, dims, gate);
    BlockEntryIsAnItem(ordered, dims, gate, k, i);
    var x := k * |ordered| + i;
    forall y | 0 <= y < |items| && About(items[y], ordered[i], dims[k])
      ensures y == x
    {
      var k', i' := ItemIsABlockEntry(ordered, dims, gate, y);
      assert k' == k;
      assert Id(ordered[i']) == Id(ordered[i]);
      assert i' == i;
    }
    assert About(items[x], ordered[i], dims[k]);
  }

  /** A report holds exactly one outcome for each record and each distinct dimension asked for. */
  lemma ReportIsComplete(records: seq<Campaign>, asked: seq<Dimension>, asOf: AsOf, r: Campaign, d: Dimension)
    requires Compare(records, asked, asOf).Success?
    requires r in records && d in asked
    ensures var items := Compare(records, asked, asOf).value.items;
            exists x :: 0 <= x < |items| && About(items[x], r, d)
              && forall y :: 0 <= y < |items| && About(items[y], r, d) ==> y == x
  {
    var ordered, dims := OrderedRecords(records), OrderedDimensions(asked);
    var gate := Gate.GateOutcome(ordered, asOf).value.0;
    DimensionsExact(asked);
    DistinctIds(ordered);
    assert r in multiset(ordered);
    var i :| 0 <= i < |ordered| && ordered[i] == r;
    assert d in dims;
    var k :| 0 <= k < |dims| && dims[k] == d;
    OneItemAbout(ordered, dims, gate, i, k);
  }

  /** Within a dimension a report accepts every record, each with evidence, or refuses every one. */
  lemma ReportIsUniform(records: seq<Campaign>, asked: seq<Dimension>, asOf: AsOf, x: nat, y: nat)
    requires Compare(records, asked, asOf).Success?
    requires var items := Compare(records, asked, asOf).value.items;
             x < |items| && y < |items| && items[x].dimension == items[y].dimension
    ensures var items := Compare(records, asked, asOf).value.items;
            (Accepted(items[x]) && Accepted(items[y])) || (Refused(items[x]) && Refused(items[y]))
  {
    var ordered, dims := OrderedRecords(records), OrderedDimensions(asked);
    var gate := Gate.GateOutcome(ordered, asOf).value.0;
    var k, i := ItemIsABlockEntry(ordered, dims, gate, x);
    var l, j := ItemIsABlockEntry(ordered, dims, gate, y);
    assert dims[k] == dims[l];
    BlockIsUniform(ordered, dims[k], gate);
  }

  /** A pair has no rejection codes exactly when both records are accepted. */
  lemma NoReasonsMeansAccepted(left: Campaign, right: Campaign, d: Dimension, asOf: AsOf)
    requires CompatibilityReasons(left, right, d, asOf).Success?
    ensures var items := Compare([left, right], [d], asOf).value.items;
            CompatibilityReasons(left, right, d, asOf).value == [] <==> forall o :: o in items ==> Accepted(o)
  {
    var items := Compare([left, right], [d], asOf).value.items;
    var reasons := RejectionReasons(items);
    DistinctKeepsAll(reasons);
    forall o | o in items
      ensures Accepted(o) <==> o.comparable
    {
      var x :| 0 <= x < |items| && items[x] == o;
      ReportIsUniform([left, right], [d], asOf, x, x);
    }
    if reasons != [] {
      assert reasons[0] in reasons;
      var o :| o in items && !o.comparable && o.reason == reasons[0];
      assert Deduplicated(reasons) != [] by { assert reasons[0] in Deduplicated(reasons); }
    } else {
      forall o | o in items
        ensures o.comparable
      {
        assert !o.comparable ==> o.reason in reasons;
      }
      assert Deduplicated(reasons) == [];
    }
  }

  lemma {:induction false} DistinctKeepsAll(rs: seq<Reason>)
    ensures forall r :: r in Deduplicated(rs) <==> r in rs
  {
    if rs != [] {
      DistinctKeepsAll(rs[..|rs| - 1]);
      assert rs == rs[..|rs| - 1] + [rs[|rs| - 1]];
    }
  }

  // ----- ranks

  lemma OutcomesAreRanked(records: seq<Campaign>, d: Dimension, sel: Selection)
    requires records != [] && d != Eligibility && Select(records, d) == Success(sel)
    ensures |sel.chosen| == |records| && Rankable(sel.chosen)
    ensures DimensionOutcomes(records, d) == RankAll(records, d, sel)
  {
    SelectionIsRankable(records, d);
  }

  /** In a ranked dimension the rank of each record is one more than the number of distinct strictly
      better figures; ranks compare as the figures do, and equal figures tie. */
  lemma RanksAreDense(records: seq<Campaign>, d: Dimension, sel: Selection, i: nat, j: nat)
    requires records != [] && d != Eligibility && Select(records, d) == Success(sel)
    requires i < |records| && j < |records|
    ensures |sel.chosen| == |records| == |DimensionOutcomes(records, d)| && Rankable(sel.chosen)
    ensures var ks, out := Keys(sel.chosen), DimensionOutcomes(records, d);
            && out[i].rank == Some(1 + |BetterThan(ks[i], ks, sel.higherIsBetter)|)
            && out[j].rank.Some?
            && (out[i].rank == out[j].rank <==> ks[i] == ks[j])
            && (out[i].rank.value < out[j].rank.value <==> Better(ks[i], ks[j], sel.higherIsBetter))
  {
    OutcomesAreRanked(records, d, sel);
    RankAllIsDense(records, d, sel, i, j);
  }

  lemma RankAllIsDense(records: seq<Campaign>, d: Dimension, sel: Selection, i: nat, j: nat)
    requires |sel.chosen| == |records| && Rankable(sel.chosen)
    requires i < |records| && j < |records|
    ensures |RankAll(records, d, sel)| == |records|
    ensures var ks, out := Keys(sel.chosen), RankAll(records, d, sel);
            && out[i].rank == Some(1 + |BetterThan(ks[i], ks, sel.higherIsBetter)|)
            && out[j].rank.Some?
            && (out[i].rank == out[j].rank <==> ks[i] == ks[j])
            && (out[i].rank.value < out[j].rank.value <==> Better(ks[i], ks[j], sel.higherIsBetter))
  {
    KeysRankDensely(Keys(sel.chosen), sel.higherIsBetter, i, j);
  }

  /** Every rank from 1 up to the number of distinct figures is in use, and no other. */
  lemma RanksAreContiguous(records: seq<Campaign>, d: Dimension, sel: Selection, rank: nat)
    requires records != [] && d != Eligibility && Select(records, d) == Success(sel)
    ensures |sel.chosen| == |records| == |DimensionOutcomes(records, d)| && Rankable(sel.chosen)
    ensures (exists i :: 0 <= i < |records| && DimensionOutcomes(records, d)[i].rank == Some(rank)) <==>
              1 <= rank <= |Ranking.Distinct(Keys(sel.chosen), sel.higherIsBetter)|
  {
    OutcomesAreRanked(records, d, sel);
    var ks := Keys(sel.chosen);
    RanksHaveNoGap(ks, sel.higherIsBetter, rank);
    if i :| 0 <= i < |records| && DimensionOutcomes(records, d)[i].rank == Some(rank) {
      assert ks[i] in ks;
    }
    if k :| k in ks && RankOf(k, ks, sel.higherIsBetter) == rank {
      var i :| 0 <= i < |ks| && ks[i] == k;
      assert DimensionOutcomes(records, d)[i].rank == Some(rank);
    }
  }

  lemma KeysRankDensely(ks: seq<Key>, higher: bool, i: nat, j: nat)
    requires i < |ks| && j < |ks|
    ensures ks[i] in ks && ks[j] in ks
    ensures RankOf(ks[i], ks, higher) == 1 + |BetterThan(ks[i], ks, higher)|
    ensures RankOf(ks[i], ks, higher) == RankOf(ks[j], ks, higher) <==> ks[i] == ks[j]
    ensures RankOf(ks[i], ks, higher) < RankOf(ks[j], ks, higher) <==> Better(ks[i], ks[j], higher)
  {
    DenseRank(ks[i], ks, higher);
    RanksFollowValues(ks[i], ks[j], ks, higher);
  }

  /** The fee ranking: a stated waiver has rank 1 and shows no figure, and the records that rank
      after it are exactly the priced ones. */
  lemma WaivedFeeRanksFirst(records: seq<Campaign>, sel: Selection, i: nat, j: nat)
    requires records != [] && Select(records, FeeDimension) == Success(sel)
    requires i < |records| && j < |records|
    requires |sel.chosen| == |records| && sel.chosen[i].offer.waived
    ensures |DimensionOutcomes(records, FeeDimension)| == |records|
    ensures DimensionOutcomes(records, FeeDimension)[i].rank == Some(1)
    ensures DimensionOutcomes(records, FeeDimension)[i].value == None
    ensures !sel.chosen[j].offer.waived <==>
              (DimensionOutcomes(records, FeeDimension)[j].rank.Some?
               && DimensionOutcomes(records, FeeDimension)[j].rank.value > 1)
  {
    OutcomesAreRanked(records, FeeDimension, sel);
    RanksAreDense(records, FeeDimension, sel, i, j);
    FeeSelection(records, sel, i);
    WaiverKeyLeads(sel.chosen, i, j);
  }

  lemma WaiverKeyLeads(chosen: seq<Chosen>, i: nat, j: nat)
    requires Rankable(chosen) && i < |chosen| && j < |chosen| && chosen[i].offer.waived
    ensures BetterThan(Keys(chosen)[i], Keys(chosen), false) == {}
    ensures Keys(chosen)[i] == Keys(chosen)[j] <==> chosen[j].offer.waived
    ensures Better(Keys(chosen)[i], Keys(chosen)[j], false) <==> !chosen[j].offer.waived
  {
    var ks := Keys(chosen);
    forall k | k in ks
      ensures !Better(k, ks[i], false)
    {
      var x :| 0 <= x < |ks| && ks[x] == k;
      assert k == KeyOf(chosen[x]);
    }
  }

  /** What the fee selection holds for one record: an offer of that record that meets the one common
      signature. */
  lemma FeeSelection(records: seq<Campaign>, sel: Selection, i: nat)
    requires records != [] && Select(records, FeeDimension) == Success(sel) && i < |records|
    ensures var all := AllOffers(records, FeeDimension);
            && |sel.chosen| == |records|
            && |Common(all)| == 1
            && Meets(sel.chosen[i].offer, TheOne(Common(all)))
            && sel.chosen[i].offer in all[i]
            && AllProper(all)
            && (sel.chosen[i].offer.waived ==> sel.chosen[i].offer.value.None?)
            && !sel.higherIsBetter
  {
    AllOffersProper(records, FeeDimension);
    SelectionIsRankable(records, FeeDimension);
    var s := TheOne(Common(AllOffers(records, FeeDimension)));
    assert Choice(records[i], FeeDimension, s).offer in OffersOf(records[i], FeeDimension);
    WaivedHaveNoValue(records[i], Entries(records[i], FeeDimension));
  }

  lemma {:induction false} WaivedHaveNoValue(r: Campaign, entries: seq<Entry>)
    requires forall e :: e in entries ==> e in Entries(r, FeeDimension)
    ensures forall o :: o in Offers(entries) && o.waived ==> o.value.None? && o.unit.None?
  {
    if entries != [] {
      WaivedHaveNoValue(r, entries[1..]);
      assert entries[0] in Entries(r, FeeDimension);
    }
  }

  /** Ranked fees that are not waived share kind, basis and currency (or rate context); a waived one
      shares kind and basis with every other. */
  lemma RankedFeesShareContext(records: seq<Campaign>, sel: Selection, i: nat, j: nat)
    requires records != [] && Select(records, FeeDimension) == Success(sel)
    requires i < |records| && j < |records|
    ensures |sel.chosen| == |records|
    ensures SamePair(sel.chosen[i].offer.signature, sel.chosen[j].offer.signature)
    ensures !sel.chosen[i].offer.waived && !sel.chosen[j].offer.waived ==>
              sel.chosen[i].offer.signature == sel.chosen[j].offer.signature
  {
    FeeSelection(records, sel, i);
    FeeSelection(records, sel, j);
    var s := TheOne(Common(AllOffers(records, FeeDimension)));
    MeetingOffersAgree(sel.chosen[i].offer, sel.chosen[j].offer, s);
    FeesOnly(records, i);
    FeesOnly(records, j);
  }

  lemma FeesOnly(records: seq<Campaign>, i: nat)
    requires i < |records|
    ensures forall o :: o in AllOffers(records, FeeDimension)[i] ==> o.signature.FeeSig?
  {
    OffersKeepShape(records[i], FeeDimension, Entries(records[i], FeeDimension));
  }

  /** When the common signature is the all-waived one, no compared record has a price of that kind
      and basis that the ranking would leave out. */
  lemma AllWaivedRankingHidesNothing(records: seq<Campaign>, sel: Selection, i: nat, f: Fee)
    requires records != [] && Select(records, FeeDimension) == Success(sel) && i < |records|
    requires TheOneIsWaived(records)
    requires f in records[i].fees
    requires var s := TheOne(Common(AllOffers(records, FeeDimension))); f.kind == s.feeKind && f.basis == s.feeBasis
    ensures f.waived
  {
    FeeSelection(records, sel, i);
    var all := AllOffers(records, FeeDimension);
    var k :| 0 <= k < |records[i].fees| && records[i].fees[k] == f;
    NoIssues(records, FeeDimension, i);
    OffersAreEntries(Entries(records[i], FeeDimension));
    assert Entries(records[i], FeeDimension)[k] == FeeEntry(f);
    AllWaivedHidesNoPrice(all, TheOne(Common(all)), i, all[i][k]);
  }

  predicate TheOneIsWaived(records: seq<Campaign>) {
    var common := Common(AllOffers(records, FeeDimension));
    |common| == 1 && TheOne(common).FeeSig? && TheOne(common).mode == WaivedMode
  }

  lemma {:induction false} NoIssues(records: seq<Campaign>, d: Dimension, i: nat)
    requires FirstIssue(records, d).None? && i < |records|
    ensures FirstFailure(Entries(records[i], d)).None?
  {
    if i > 0 {
      NoIssues(records[1..], d, i - 1);
    }
  }
}
