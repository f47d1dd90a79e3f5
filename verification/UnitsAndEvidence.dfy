/** What a ranking's figures have in common, and what they rest on. All figures are in one unit where
    no reward states a second figure. Evidence is matched by a pointer prefix, so that one value may
    borrow the evidence of others: which, is stated exactly. */
module UnitsAndEvidence {
  import opened Wrappers
  import opened Contracts
  import opened Signatures
  import opened Ranking
  import opened Ordering
  import opened Digits
  import opened Comparison
  import opened Report
  import opened ReportTheorems

  lemma {:induction false} UnitsFollowSignatures(r: Campaign, d: Dimension, entries: seq<Entry>)
    requires forall e :: e in entries ==> e in Entries(r, d)
    requires d == RewardDimension ==> forall w :: w in r.rewards ==> SingleFigure(w)
    ensures forall o :: o in Offers(entries) ==> o.unit == SignatureUnit(o.signature)
  {
    if entries != [] {
      UnitsFollowSignatures(r, d, entries[1..]);
      assert entries[0] in Entries(r, d);
      var k :| 0 <= k < |Entries(r, d)| && Entries(r, d)[k] == entries[0];
      if d == RewardDimension {
        assert r.rewards[k] in r.rewards;
        RewardUnit(r.rewards[k]);
      }
    }
  }

  lemma RewardUnit(w: Reward)
    requires SingleFigure(w)
    ensures RewardEntry(w).Success? ==> RewardEntry(w).value.unit == SignatureUnit(RewardEntry(w).value.signature)
  {
  }

  /** The chosen offers of one dimension all meet one signature. */
  lemma ChosenMeetOne(records: seq<Campaign>, d: Dimension, sel: Selection, i: nat)
    requires records != [] && d != Eligibility && d != TermDimension
    requires Select(records, d) == Success(sel) && i < |records|
    ensures |sel.chosen| == |records|
    ensures |Common(AllOffers(records, d))| == 1
    ensures Meets(sel.chosen[i].offer, TheOne(Common(AllOffers(records, d))))
    ensures sel.chosen[i].offer in OffersOf(records[i], d)
  {
    SelectionIsRankable(records, d);
    var s := TheOne(Common(AllOffers(records, d)));
    assert sel.chosen == Choices(records, d, s);
    assert Choice(records[i], d, s).offer in OffersOf(records[i], d);
  }

  /** All figures of one ranking are in one unit: always for rates, terms and fees, and for rewards
      that state no second figure. */
  lemma OneUnitPerRanking(records: seq<Campaign>, d: Dimension, sel: Selection, i: nat, j: nat)
    requires records != [] && d != Eligibility && Select(records, d) == Success(sel)
    requires i < |records| && j < |records|
    requires d == RewardDimension ==> forall r, w :: r in records && w in r.rewards ==> SingleFigure(w)
    ensures |sel.chosen| == |records|
    ensures var u, v := sel.chosen[i].offer.unit, sel.chosen[j].offer.unit; u.Some? && v.Some? ==> u == v
  {
    SelectionIsRankable(records, d);
    if d == TermDimension {
      NoneWithout(records, d);
      assert sel.chosen == LongestTerms(records);
    } else {
      UnitOfChosen(records, d, sel, i);
      UnitOfChosen(records, d, sel, j);
    }
  }

  /** A chosen offer with a unit has the unit of the common signature. */
  lemma UnitOfChosen(records: seq<Campaign>, d: Dimension, sel: Selection, i: nat)
    requires records != [] && d != Eligibility && d != TermDimension
    requires Select(records, d) == Success(sel) && i < |records|
    requires d == RewardDimension ==> forall r, w :: r in records && w in r.rewards ==> SingleFigure(w)
    ensures |sel.chosen| == |records|
    ensures var u := sel.chosen[i].offer.unit;
            u.Some? ==> u == SignatureUnit(TheOne(Common(AllOffers(records, d))))
  {
    ChosenMeetOne(records, d, sel, i);
    UnitsFollowSignatures(records[i], d, Entries(records[i], d));
    OffersAreProper(records[i], d, Entries(records[i], d));
  }

  // ----- evidence by prefix

  lemma NumeralDigits(n: nat)
    ensures AllDigits(Numeral(n))
  {
    NumeralReads(n);
  }

  /** Evidence for the j-th value, or for anything under it, counts as evidence for the i-th exactly
      when the digits of i are a prefix of the digits of j, whether its pointer starts with "/data" or
      leaves that out. */
  lemma EvidenceCountsByPrefix(id: string, data: string, list: string, i: nat, j: nat, below: string)
    requires data == "/data" || data == ""
    requires |list| > 1 && list[0] == '/' && list[1] != 'd'
    requires below == "" || below[0] == '/'
    ensures Supports(Evidence(id, data + list + "/" + Numeral(j) + below), list + "/" + Numeral(i))
        <==> Numeral(i) <= Numeral(j)
  {
    NumeralDigits(i);
    DigitsStopAtSlash(Numeral(i), Numeral(j), below);
    UnderList(data, list, Numeral(i), Numeral(j), below);
    SupportsUnder(id, data, list + "/" + Numeral(i), data + list + "/" + Numeral(j) + below);
  }

  /** A pointer is matched in the form it has. */
  lemma SupportsUnder(id: string, data: string, tail: string, pointer: string)
    requires data == "/data" || data == ""
    requires |tail| > 1 && tail[1] != 'd'
    requires |pointer| > 1 && (pointer[1] == 'd' <==> data == "/data")
    ensures Supports(Evidence(id, pointer), tail) <==> data + tail <= pointer
  {
    if data == "" {
      assert data + tail == tail;
      OutsideList("/data" + tail, pointer);
    } else {
      OutsideData(tail, pointer);
    }
  }

  lemma OutsideList(tail: string, pointer: string)
    requires |tail| > 1 && tail[1] == 'd'
    requires |pointer| > 1 && pointer[1] != 'd'
    ensures !(tail <= pointer)
  {
  }

  lemma OutsideData(tail: string, pointer: string)
    requires |tail| > 1 && tail[1] != 'd'
    requires |pointer| > 1 && pointer[1] == 'd'
    ensures !(tail <= pointer)
  {
  }

  lemma UnderList(data: string, list: string, a: string, b: string, below: string)
    ensures data + (list + "/" + a) <= data + list + "/" + b + below <==> a <= b + below
  {
    var head := data + list + "/";
    assert data + (list + "/" + a) == head + a;
    assert data + list + "/" + b + below == head + (b + below);
    PrefixUnderHead(head, a, b + below);
  }

  lemma PrefixUnderHead(head: string, a: string, b: string)
    ensures head + a <= head + b <==> a <= b
  {
    if |a| <= |b| {
      assert (head + b)[..|head| + |a|] == head + b[..|a|];
      assert a == (head + a)[|head|..];
      assert b[..|a|] == (head + b[..|a|])[|head|..];
    }
  }

  lemma DigitsStopAtSlash(a: string, b: string, below: string)
    requires AllDigits(a)
    requires below == "" || below[0] == '/'
    ensures a <= b + below <==> a <= b
  {
    if |a| <= |b| {
      assert (b + below)[..|a|] == b[..|a|];
    } else if below != "" {
      assert a[|b|] != (b + below)[|b|];
    }
  }

  /** Within the twenty values a record may state, that is the value itself or, for the second value,
      any of the values from the eleventh on. */
  lemma OnlySecondValueBorrows(i: nat, j: nat)
    requires i < 20 && j < 20
    ensures Numeral(i) <= Numeral(j) <==> i == j || (i == 1 && 10 <= j)
  {
    var a, b := Numeral(i), Numeral(j);
    assert i >= 10 ==> a == [DigitChar(1)] + [DigitChar(i - 10)];
    assert j >= 10 ==> b == [DigitChar(1)] + [DigitChar(j - 10)];
    DigitsDiffer(i % 10, j % 10);
    DigitsDiffer(i % 10, 1);
    assert a <= b ==> a[0] == b[0];
    assert a <= b && |a| == 2 ==> |b| == 2 && a[1] == b[1];
  }

  lemma DigitsDiffer(m: nat, n: nat)
    requires m < 10 && n < 10
    ensures DigitChar(m) == DigitChar(n) <==> m == n
  {
  }
}
