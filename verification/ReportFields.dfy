/** The whole report: its errors, and what stands at each place. */
module ReportFields {
  import opened Wrappers
  import opened Contracts
  import opened Ordering
  import opened Comparison
  import opened Report
  import opened ReportTheorems
  import opened GateFields
  import Gate

  /** The first obstacle of the gate in the records' fields, if any. */
  function Obstacle(records: seq<Campaign>, asOf: AsOf): Option<Reason> {
    First(ContextObstacle(records), TimeObstacle(records, asOf))
  }

  predicate SharesId(records: seq<Campaign>) {
    exists i, j :: 0 <= i < j < |records| && records[i].id == records[j].id
  }

  lemma SameGate(records: seq<Campaign>, asOf: AsOf)
    ensures Gate.GateOutcome(OrderedRecords(records), asOf) == Gate.GateOutcome(records, asOf)
  {
    var ordered := OrderedRecords(records);
    forall r
      ensures r in ordered <==> r in records
    {
      assert r in ordered <==> r in multiset(ordered);
      assert r in records <==> r in multiset(records);
    }
    Gate.GateIsOfTheSet(records, ordered, asOf);
  }

  lemma SameIds(records: seq<Campaign>)
    ensures |OrderedRecords(records)| == |records|
    ensures |Ids(OrderedRecords(records))| != |records| <==> SharesId(records)
  {
    SameElements(OrderedRecords(records), records);
    DistinctIds(records);
    if SharesId(records) {
      var i, j :| 0 <= i < j < |records| && records[i].id == records[j].id;
      assert Id(records[i]) == Id(records[j]);
    } else {
      forall i, j | 0 <= i < j < |records|
        ensures Id(records[i]) != Id(records[j])
      {
      }
    }
  }

  lemma SomeAsked(asked: seq<Dimension>)
    ensures OrderedDimensions(asked) == [] <==> asked == []
  {
    DimensionsExact(asked);
    if asked != [] {
      assert asked[0] in OrderedDimensions(asked);
    }
    if OrderedDimensions(asked) != [] {
      assert OrderedDimensions(asked)[0] in asked;
    }
  }

  lemma NaiveExactly(records: seq<Campaign>, asOf: AsOf)
    ensures Gate.GateOutcome(records, asOf).Failure? <==> ContextObstacle(records).None? && asOf.NaiveAt?
  {
    GateInFields(records, asOf);
  }

  /** When there is no report: fewer than two records, then two with one id, then no dimension, then a
      timestamp without a zone, where no earlier obstacle ends the gate. */
  lemma ErrorsExactly(records: seq<Campaign>, asked: seq<Dimension>, asOf: AsOf)
    ensures Compare(records, asked, asOf) == Failure(TooFewCampaigns) <==> |records| < 2
    ensures Compare(records, asked, asOf) == Failure(DuplicateIds) <==> |records| >= 2 && SharesId(records)
    ensures Compare(records, asked, asOf) == Failure(NoDimensions) <==>
              |records| >= 2 && !SharesId(records) && asked == []
    ensures Compare(records, asked, asOf) == Failure(NaiveAsOf) <==>
              && |records| >= 2 && !SharesId(records) && asked != []
              && ContextObstacle(records).None? && asOf.NaiveAt?
  {
    SameIds(records);
    SomeAsked(asked);
    SameGate(records, asOf);
    NaiveExactly(records, asOf);
  }

  // ----- the items in their places

  /** The dimensions by their names. */
  function Place(d: Dimension): nat {
    match d
    case Eligibility => 0
    case FeeDimension => 1
    case RateDimension => 2
    case RewardDimension => 3
    case TermDimension => 4
  }

  lemma {:induction false} FilteredInOrder(order: seq<Dimension>, asked: set<Dimension>)
    requires forall i, j :: 0 <= i < j < |order| ==> Place(order[i]) < Place(order[j])
    ensures forall d :: d in Filtered(order, asked) ==> d in order
    ensures forall i, j :: 0 <= i < j < |Filtered(order, asked)| ==>
              Place(Filtered(order, asked)[i]) < Place(Filtered(order, asked)[j])
  {
    if order != [] {
      FilteredInOrder(order[1..], asked);
      var rest := Filtered(order[1..], asked);
      forall j | 0 <= j < |rest|
        ensures Place(order[0]) < Place(rest[j])
      {
        assert rest[j] in rest && rest[j] in order[1..];
      }
    }
  }

  lemma DimensionsInOrder(asked: seq<Dimension>)
    ensures forall i, j :: 0 <= i < j < |OrderedDimensions(asked)| ==>
              Place(OrderedDimensions(asked)[i]) < Place(OrderedDimensions(asked)[j])
  {
    AlphabeticalPlaces();
    FilteredInOrder(ALPHABETICAL, set d | d in asked);
  }

  lemma AlphabeticalPlaces()
    ensures forall i :: 0 <= i < |ALPHABETICAL| ==> Place(ALPHABETICAL[i]) == i
  {
  }

  predicate RefusedBy(o: Outcome, r: Campaign, d: Dimension, reason: Reason) {
    o == Outcome(r.id, d, false, None, None, None, reason, [])
  }

  /** One report: the records by their ids, the dimensions by their names. */
  ghost predicate Arranged(records: seq<Campaign>, asked: seq<Dimension>, ordered: seq<Campaign>, dims: seq<Dimension>) {
    && multiset(ordered) == multiset(records)
    && (forall i, j :: 0 <= i < j < |ordered| ==> StrLe(ordered[i].id, ordered[j].id))
    && (forall d :: d in dims <==> d in asked)
    && (forall i, j :: 0 <= i < j < |dims| ==> Place(dims[i]) < Place(dims[j]))
  }

  lemma ArrangedSo(records: seq<Campaign>, asked: seq<Dimension>)
    ensures Arranged(records, asked, OrderedRecords(records), OrderedDimensions(asked))
  {
    DimensionsExact(asked);
    DimensionsInOrder(asked);
    SortIsSorted(records, Id);
    var ordered := OrderedRecords(records);
    forall i, j | 0 <= i < j < |ordered|
      ensures StrLe(ordered[i].id, ordered[j].id)
    {
      assert StrLe(Id(ordered[i]), Id(ordered[j]));
    }
  }

  /** The entry of one record in the block of one dimension: the gate's obstacle refuses it, and without
      one it is what the dimension decides. */
  predicate EntryOf(o: Outcome, ordered: seq<Campaign>, d: Dimension, i: nat, obstacle: Option<Reason>)
    requires i < |ordered|
  {
    if obstacle.Some? then RefusedBy(o, ordered[i], d, obstacle.value)
    else |DimensionOutcomes(ordered, d)| == |ordered| && o == DimensionOutcomes(ordered, d)[i]
  }

  lemma BlockEntry(ordered: seq<Campaign>, d: Dimension, gate: Option<Reason>, i: nat)
    requires i < |ordered|
    ensures |Block(ordered, d, gate)| == |ordered|
    ensures EntryOf(Block(ordered, d, gate)[i], ordered, d, i, gate)
  {
    BlockIsUniform(ordered, d, gate);
  }

  lemma GateReason(records: seq<Campaign>, asOf: AsOf)
    requires Gate.GateOutcome(records, asOf).Success?
    ensures Gate.GateOutcome(records, asOf).value.0 == Obstacle(records, asOf)
    ensures Gate.GateOutcome(records, asOf).value.1
         == if Obstacle(records, asOf).Some? then [] else ContextNotes(records) + ValidityNotes(records)
  {
    GateInFields(records, asOf);
  }

  /** What stands at each place of a report: the dimensions in the order of their names, within each the
      records in the order of their ids; with an obstacle at the gate every entry is refused for it, and
      otherwise each dimension decides; and the notes are the gate's. */
  lemma ReportExactly(records: seq<Campaign>, asked: seq<Dimension>, asOf: AsOf, x: nat)
      returns (ordered: seq<Campaign>, dims: seq<Dimension>, k: nat, i: nat)
    requires Compare(records, asked, asOf).Success? && x < |Compare(records, asked, asOf).value.items|
    ensures Arranged(records, asked, ordered, dims)
    ensures k < |dims| && i < |ordered| && x == k * |ordered| + i
    ensures EntryOf(Compare(records, asked, asOf).value.items[x], ordered, dims[k], i, Obstacle(records, asOf))
    ensures Compare(records, asked, asOf).value.asOf == asOf
    ensures Compare(records, asked, asOf).value.notes
         == if Obstacle(records, asOf).Some? then [] else ContextNotes(records) + ValidityNotes(records)
  {
    ordered, dims := OrderedRecords(records), OrderedDimensions(asked);
    ArrangedSo(records, asked);
    SameGate(records, asOf);
    GateReason(records, asOf);
    k, i := ItemIsABlockEntry(ordered, dims, Obstacle(records, asOf), x);
    BlockEntry(ordered, dims[k], Obstacle(records, asOf), i);
  }

  // ----- the reasons of a pair

  /** The codes of a pair: none when both are accepted, otherwise those of the two entries, the one of
      the smaller id first and a repeated one once. */
  lemma PairReasonsExactly(left: Campaign, right: Campaign, d: Dimension, asOf: AsOf)
    requires CompatibilityReasons(left, right, d, asOf).Success?
    ensures Compare([left, right], [d], asOf).Success? && |Compare([left, right], [d], asOf).value.items| == 2
    ensures var items, reasons := Compare([left, right], [d], asOf).value.items, CompatibilityReasons(left, right, d, asOf).value;
            && items[0].comparable == items[1].comparable
            && reasons == if items[0].comparable then []
                          else if items[0].reason == items[1].reason then [items[0].reason]
                          else [items[0].reason, items[1].reason]
  {
    PairItems(left, right, d, asOf);
    var items := Compare([left, right], [d], asOf).value.items;
    ReportIsUniform([left, right], [d], asOf, 0, 1);
    PairDeduplicated(items);
  }

  lemma PairItems(left: Campaign, right: Campaign, d: Dimension, asOf: AsOf)
    requires Compare([left, right], [d], asOf).Success?
    ensures |Compare([left, right], [d], asOf).value.items| == 2
    ensures Compare([left, right], [d], asOf).value.items[0].dimension == d
    ensures Compare([left, right], [d], asOf).value.items[1].dimension == d
  {
    var ordered, dims := OrderedRecords([left, right]), OrderedDimensions([d]);
    OneDimension(d);
    var gate := Gate.GateOutcome(ordered, asOf).value.0;
    ItemsLength(ordered, dims, gate);
    var items := Items(ordered, dims, gate);
    var k, i := ItemIsABlockEntry(ordered, dims, gate, 0);
    var l, j := ItemIsABlockEntry(ordered, dims, gate, 1);
  }

  lemma OnlyThis(dims: seq<Dimension>, d: Dimension, i: nat)
    requires forall x :: x in dims ==> x == d
    ensures i < |dims| ==> dims[i] == d
  {
    assert i < |dims| ==> dims[i] in dims;
  }

  lemma OneDimension(d: Dimension)
    ensures OrderedDimensions([d]) == [d]
  {
    DimensionsExact([d]);
    var dims := OrderedDimensions([d]);
    assert d in dims;
    OnlyThis(dims, d, 0);
    OnlyThis(dims, d, 1);
  }

  lemma TwoReasons(a: Outcome, b: Outcome)
    requires a.comparable == b.comparable
    ensures RejectionReasons([a, b]) == if a.comparable then [] else [a.reason, b.reason]
  {
    assert [a, b][..1] == [a] && [a][..0] == [];
    assert RejectionReasons([a]) == if a.comparable then [] else [a.reason];
  }

  lemma TwoDeduplicated(x: Reason, y: Reason)
    ensures Deduplicated([x, y]) == if x == y then [x] else [x, y]
  {
    assert [x, y][..1] == [x] && [x][..0] == [];
    assert Deduplicated([x]) == [x];
  }

  lemma PairDeduplicated(items: seq<Outcome>)
    requires |items| == 2 && items[0].comparable == items[1].comparable
    ensures Deduplicated(RejectionReasons(items))
         == if items[0].comparable then []
            else if items[0].reason == items[1].reason then [items[0].reason]
            else [items[0].reason, items[1].reason]
  {
    assert items == [items[0], items[1]];
    TwoReasons(items[0], items[1]);
    TwoDeduplicated(items[0].reason, items[1].reason);
  }
}
