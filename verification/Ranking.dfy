/** Dense ranking of selected values; a stated waiver precedes every priced value. */
module Ranking {
  import opened Wrappers

  /** The sort key of a value: the lead keeps a waiver, which has no figure, apart from numbers. */
  datatype Key = Key(lead: int, value: real)

  function RankKey(waived: bool, value: Option<real>): Key
    requires !waived ==> value.Some?
  {
    if waived then Key(0, 0.0) else Key(1, value.value)
  }

  predicate Less(a: Key, b: Key) {
    a.lead < b.lead || (a.lead == b.lead && a.value < b.value)
  }

  predicate Better(a: Key, b: Key, higherIsBetter: bool) {
    if higherIsBetter then Less(b, a) else Less(a, b)
  }

  ghost predicate Ordered(ks: seq<Key>, higherIsBetter: bool) {
    forall i, j :: 0 <= i < j < |ks| ==> Better(ks[i], ks[j], higherIsBetter)
  }

  function Insert(k: Key, ks: seq<Key>, higherIsBetter: bool): (r: seq<Key>)
    ensures forall x :: x in r <==> x == k || x in ks
  {
    if ks == [] then [k]
    else if k == ks[0] then ks
    else if Better(k, ks[0], higherIsBetter) then [k] + ks
    else [ks[0]] + Insert(k, ks[1..], higherIsBetter)
  }

  /** The sorted list of the distinct keys, best first. */
  function Distinct(ks: seq<Key>, higherIsBetter: bool): (r: seq<Key>)
    ensures forall x :: x in r <==> x in ks
  {
    if ks == [] then [] else Insert(ks[0], Distinct(ks[1..], higherIsBetter), higherIsBetter)
  }

  function IndexOf(k: Key, ks: seq<Key>): (i: nat)
    requires k in ks
    ensures i < |ks| && ks[i] == k
  {
    if ks[0] == k then 0 else 1 + IndexOf(k, ks[1..])
  }

  function RankOf(k: Key, ks: seq<Key>, higherIsBetter: bool): nat
    requires k in ks
  {
    IndexOf(k, Distinct(ks, higherIsBetter)) + 1
  }

  lemma {:induction false} InsertOrdered(k: Key, ks: seq<Key>, higherIsBetter: bool)
    requires Ordered(ks, higherIsBetter)
    ensures Ordered(Insert(k, ks, higherIsBetter), higherIsBetter)
  {
    if ks != [] && k != ks[0] && !Better(k, ks[0], higherIsBetter) {
      InsertOrdered(k, ks[1..], higherIsBetter);
      var rest := Insert(k, ks[1..], higherIsBetter);
      forall j | 0 <= j < |rest|
        ensures Better(ks[0], rest[j], higherIsBetter)
      {
        assert rest[j] in rest;
      }
    }
  }

  lemma {:induction false} DistinctOrdered(ks: seq<Key>, higherIsBetter: bool)
    ensures Ordered(Distinct(ks, higherIsBetter), higherIsBetter)
  {
    if ks != [] {
      DistinctOrdered(ks[1..], higherIsBetter);
      InsertOrdered(ks[0], Distinct(ks[1..], higherIsBetter), higherIsBetter);
    }
  }

  function BetterThan(k: Key, ks: seq<Key>, higherIsBetter: bool): set<Key> {
    set x | x in ks && Better(x, k, higherIsBetter)
  }

  function Elements(ks: seq<Key>): set<Key> {
    set x | x in ks
  }

  lemma {:induction false} OrderedPrefixSize(ks: seq<Key>, i: nat, higherIsBetter: bool)
    requires Ordered(ks, higherIsBetter) && i <= |ks|
    ensures |Elements(ks[..i])| == i
  {
    if i > 0 {
      OrderedPrefixSize(ks, i - 1, higherIsBetter);
      assert ks[..i] == ks[..i - 1] + [ks[i - 1]];
      assert Elements(ks[..i]) == Elements(ks[..i - 1]) + {ks[i - 1]};
      assert ks[i - 1] !in ks[..i - 1];
    }
  }

  /** Each rank is one more than the number of distinct strictly better values. */
  lemma DenseRank(k: Key, ks: seq<Key>, higherIsBetter: bool)
    requires k in ks
    ensures RankOf(k, ks, higherIsBetter) == 1 + |BetterThan(k, ks, higherIsBetter)|
    ensures 1 <= RankOf(k, ks, higherIsBetter) <= |Distinct(ks, higherIsBetter)|
  {
    var d := Distinct(ks, higherIsBetter);
    DistinctOrdered(ks, higherIsBetter);
    var i := IndexOf(k, d);
    OrderedPrefixSize(d, i, higherIsBetter);
    var above := Elements(d[..i]);
    forall x
      ensures x in above <==> x in BetterThan(k, ks, higherIsBetter)
    {
      if x in d && Better(x, k, higherIsBetter) {
        var j :| 0 <= j < |d| && d[j] == x;
        assert j < i;
        assert d[..i][j] == x;
      }
    }
    assert above == BetterThan(k, ks, higherIsBetter);
  }

  /** Ranks compare as the values do, and equal values tie. */
  lemma RanksFollowValues(a: Key, b: Key, ks: seq<Key>, higherIsBetter: bool)
    requires a in ks && b in ks
    ensures RankOf(a, ks, higherIsBetter) < RankOf(b, ks, higherIsBetter) <==> Better(a, b, higherIsBetter)
    ensures RankOf(a, ks, higherIsBetter) == RankOf(b, ks, higherIsBetter) <==> a == b
  {
    DistinctOrdered(ks, higherIsBetter);
  }

  /** The ranks in use are exactly 1 to k, with no gap. */
  lemma RanksHaveNoGap(ks: seq<Key>, higherIsBetter: bool, rank: nat)
    ensures (exists k :: k in ks && RankOf(k, ks, higherIsBetter) == rank) <==>
              1 <= rank <= |Distinct(ks, higherIsBetter)|
  {
    var d := Distinct(ks, higherIsBetter);
    DistinctOrdered(ks, higherIsBetter);
    if 1 <= rank <= |d| {
      assert d[rank - 1] in d;
      assert IndexOf(d[rank - 1], d) == rank - 1;
      assert RankOf(d[rank - 1], ks, higherIsBetter) == rank;
    }
  }

  /** On a lower-is-better axis a waiver has rank 1, ahead of every priced value. */
  lemma WaiverIsFirst(ks: seq<Key>, value: real)
    requires RankKey(true, None) in ks
    requires forall k :: k in ks ==> k == RankKey(true, None) || k.lead == 1
    ensures RankOf(RankKey(true, None), ks, false) == 1
    ensures RankKey(false, Some(value)) in ks ==> RankOf(RankKey(false, Some(value)), ks, false) > 1
  {
    DenseRank(RankKey(true, None), ks, false);
    assert BetterThan(RankKey(true, None), ks, false) == {};
    if RankKey(false, Some(value)) in ks {
      RanksFollowValues(RankKey(true, None), RankKey(false, Some(value)), ks, false);
    }
  }
}
