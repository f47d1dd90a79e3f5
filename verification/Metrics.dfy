/** Evaluation metrics: counts per class and per field, and their macro averages, over exact reals. */
module Metrics {
  import opened Wrappers
  import opened Ordering

  datatype Counts = Counts(truePositive: nat, falsePositive: nat, falseNegative: nat, support: nat)

  function Ratio(part: nat, whole: nat): real {
    if whole == 0 then 0.0 else part as real / whole as real
  }

  function Precision(c: Counts): real {
    Ratio(c.truePositive, c.truePositive + c.falsePositive)
  }

  function Recall(c: Counts): real {
    Ratio(c.truePositive, c.truePositive + c.falseNegative)
  }

  function F1(c: Counts): real {
    var precision, recall := Precision(c), Recall(c);
    if precision + recall == 0.0 then 0.0 else 2.0 * precision * recall / (precision + recall)
  }

  function Sum(values: seq<real>): real {
    if values == [] then 0.0 else Sum(values[..|values| - 1]) + values[|values| - 1]
  }

  function Mean(values: seq<real>): real {
    if values == [] then 0.0 else Sum(values) / |values| as real
  }

  // ----- the harmonic mean in closed form

  lemma ZeroProduct(a: real, x: real)
    requires a > 0.0 && a * x == 0.0
    ensures x == 0.0
  {
  }

  lemma Quotient(part: nat, whole: nat)
    requires whole > 0
    ensures Ratio(part, whole) * whole as real == part as real
    ensures Ratio(part, whole) >= 0.0
    ensures part > 0 ==> Ratio(part, whole) > 0.0
  {
  }

  /** With `p = t / a` and `r = t / b`, twice `p r` is `2 t / (a + b)` of their sum. */
  lemma Harmonic(t: real, a: real, b: real, p: real, r: real, y: real)
    requires a > 0.0 && b > 0.0 && p * a == t && r * b == t && y * (a + b) == 2.0 * t
    ensures y * (p + r) == 2.0 * p * r
  {
    var gap := y * (p + r) - 2.0 * p * r;
    assert (a * b) * (p * r) == (p * a) * (r * b);
    assert (a * b) * (p + r) == (p * a) * b + (r * b) * a;
    assert (a * b) * (p + r) == t * (a + b);
    assert (a * b) * (y * (p + r)) == y * ((a * b) * (p + r)) == y * (t * (a + b)) == t * (y * (a + b));
    assert (a * b) * gap == 0.0;
    ZeroProduct(a * b, gap);
  }

  lemma Divides(x: real, y: real, d: real)
    requires d > 0.0 && y * d == x
    ensures x / d == y
  {
  }

  /** F1 is twice the true positives over twice them plus all errors, and zero when there are neither. */
  lemma F1Closed(c: Counts)
    ensures F1(c) == Ratio(2 * c.truePositive, 2 * c.truePositive + c.falsePositive + c.falseNegative)
  {
    var t := c.truePositive;
    var a, b := t + c.falsePositive, t + c.falseNegative;
    if t > 0 {
      Quotient(t, a);
      Quotient(t, b);
      Quotient(2 * t, a + b);
      Harmonic(t as real, a as real, b as real, Ratio(t, a), Ratio(t, b), Ratio(2 * t, a + b));
      Divides(2.0 * Ratio(t, a) * Ratio(t, b), Ratio(2 * t, a + b), Ratio(t, a) + Ratio(t, b));
    } else {
      ZeroRatio(a);
      ZeroRatio(b);
      ZeroRatio(a + b);
    }
  }

  lemma ZeroRatio(whole: nat)
    ensures Ratio(0, whole) == 0.0
  {
  }

  lemma RatioRange(part: nat, whole: nat)
    requires part <= whole
    ensures 0.0 <= Ratio(part, whole) <= 1.0
    ensures Ratio(part, whole) == 1.0 <==> part == whole && whole > 0
  {
    if whole > 0 {
      Quotient(part, whole);
    }
  }

  ghost predicate Flawless(c: Counts) {
    c.truePositive > 0 && c.falsePositive == 0 && c.falseNegative == 0
  }

  /** F1 lies between 0 and 1, and is 1 exactly when something was found and there is no error. */
  lemma F1Range(c: Counts)
    ensures 0.0 <= F1(c) <= 1.0
    ensures F1(c) == 1.0 <==> Flawless(c)
  {
    F1Closed(c);
    RatioRange(2 * c.truePositive, 2 * c.truePositive + c.falsePositive + c.falseNegative);
  }

  lemma {:induction false} SumAtMost(values: seq<real>)
    requires forall i :: 0 <= i < |values| ==> 0.0 <= values[i] <= 1.0
    ensures 0.0 <= Sum(values) <= |values| as real
    ensures Sum(values) == |values| as real <==> forall i :: 0 <= i < |values| ==> values[i] == 1.0
  {
    if values != [] {
      SumAtMost(values[..|values| - 1]);
    }
  }

  /** A mean of values between 0 and 1 is 1 exactly when there are values and all are 1. */
  lemma MeanIsOne(values: seq<real>)
    requires forall i :: 0 <= i < |values| ==> 0.0 <= values[i] <= 1.0
    ensures 0.0 <= Mean(values) <= 1.0
    ensures Mean(values) == 1.0 <==> values != [] && forall i :: 0 <= i < |values| ==> values[i] == 1.0
  {
    SumAtMost(values);
    if values != [] {
      Divides(Sum(values), Mean(values), |values| as real);
      MeanRange(Sum(values), |values| as real);
    }
  }

  lemma MeanRange(x: real, n: real)
    requires 0.0 <= x <= n && n > 0.0
    ensures 0.0 <= x / n <= 1.0
    ensures x / n == 1.0 <==> x == n
  {
    assert (x / n) * n == x;
  }

  function Precisions(metrics: seq<Counts>): (r: seq<real>)
    ensures |r| == |metrics|
    ensures forall i :: 0 <= i < |r| ==> r[i] == Precision(metrics[i])
  {
    if metrics == [] then [] else Precisions(metrics[..|metrics| - 1]) + [Precision(metrics[|metrics| - 1])]
  }

  function Recalls(metrics: seq<Counts>): (r: seq<real>)
    ensures |r| == |metrics|
    ensures forall i :: 0 <= i < |r| ==> r[i] == Recall(metrics[i])
  {
    if metrics == [] then [] else Recalls(metrics[..|metrics| - 1]) + [Recall(metrics[|metrics| - 1])]
  }

  function F1s(metrics: seq<Counts>): (r: seq<real>)
    ensures |r| == |metrics|
    ensures forall i :: 0 <= i < |r| ==> r[i] == F1(metrics[i])
  {
    if metrics == [] then [] else F1s(metrics[..|metrics| - 1]) + [F1(metrics[|metrics| - 1])]
  }

  /** A macro F1 is 1 exactly when there is something to average and none of it has an error. */
  lemma MacroIsOne(metrics: seq<Counts>)
    ensures 0.0 <= Mean(F1s(metrics)) <= 1.0
    ensures Mean(F1s(metrics)) == 1.0 <==>
              metrics != [] && forall i :: 0 <= i < |metrics| ==> Flawless(metrics[i])
  {
    forall i | 0 <= i < |metrics|
      ensures 0.0 <= F1s(metrics)[i] <= 1.0
      ensures F1s(metrics)[i] == 1.0 <==> Flawless(metrics[i])
    {
      F1Range(metrics[i]);
    }
    MeanIsOne(F1s(metrics));
  }

  // ----- the labels of a classification

  type Labelling = map<string, string>

  function Get<V>(m: map<string, V>, key: string): Option<V> {
    if key in m then Some(m[key]) else None
  }

  lemma {:induction false} LeastExists(s: set<string>) returns (least: string)
    requires s != {}
    ensures least in s && forall y :: y in s ==> StrLe(least, y)
    decreases |s|
  {
    least :| least in s;
    var rest := s - {least};
    StrLeTotal(least, least);
    assert forall y :: y in s ==> y == least || y in rest;
    if rest != {} {
      var other := LeastExists(rest);
      StrLeTotal(least, other);
      if StrLe(least, other) {
        forall y | y in s
          ensures StrLe(least, y)
        {
          if y != least {
            StrLeTransitive(least, other, y);
          }
        }
      } else {
        least := other;
      }
    }
  }

  predicate IsLeast(s: set<string>, x: string) {
    x in s && forall y :: y in s ==> StrLe(x, y)
  }

  lemma LeastIsUnique(s: set<string>)
    requires s != {}
    ensures exists x :: IsLeast(s, x)
    ensures forall x, y :: IsLeast(s, x) && IsLeast(s, y) ==> x == y
  {
    var least := LeastExists(s);
    assert IsLeast(s, least);
    forall x, y | IsLeast(s, x) && IsLeast(s, y)
      ensures x == y
    {
      StrLeTotal(x, y);
    }
  }

  /** The members of a set in code-point order. */
  function Sorted(s: set<string>): seq<string>
    decreases |s|
  {
    if s == {} then []
    else
      LeastIsUnique(s);
      var x :| IsLeast(s, x);
      [x] + Sorted(s - {x})
  }

  ghost predicate Distinct(labels: seq<string>) {
    forall i, j :: 0 <= i < j < |labels| ==> labels[i] != labels[j]
  }

  lemma {:induction false} SortedMembers(s: set<string>, x: string)
    ensures x in Sorted(s) <==> x in s
    decreases |s|
  {
    if s != {} {
      LeastIsUnique(s);
      var least :| IsLeast(s, least);
      SortedMembers(s - {least}, x);
    }
  }

  lemma {:induction false} SortedDistinct(s: set<string>)
    ensures Distinct(Sorted(s))
    decreases |s|
  {
    if s != {} {
      LeastIsUnique(s);
      var least :| IsLeast(s, least);
      SortedDistinct(s - {least});
      SortedMembers(s - {least}, least);
    }
  }

  ghost predicate Ascends(labels: seq<string>) {
    forall i, j :: 0 <= i < j < |labels| ==> StrLe(labels[i], labels[j])
  }

  lemma {:induction false} SortedAscends(s: set<string>)
    ensures Ascends(Sorted(s))
    decreases |s|
  {
    if s != {} {
      LeastIsUnique(s);
      var least :| IsLeast(s, least);
      var rest := Sorted(s - {least});
      SortedAscends(s - {least});
      forall j | 0 <= j < |rest|
        ensures StrLe(least, rest[j])
      {
        SortedMembers(s - {least}, rest[j]);
      }
    }
  }

  function WithLabel(m: Labelling, category: string): set<string> {
    set id | id in m && m[id] == category
  }

  /** The ids of one labelling's class that the other puts there too. */
  function Shared(m: Labelling, other: Labelling, category: string): set<string> {
    set id | id in m && m[id] == category && Get(other, id) == Some(category)
  }

  /** The ids of one labelling's class that the other does not put there. */
  function Unshared(m: Labelling, other: Labelling, category: string): set<string> {
    set id | id in m && m[id] == category && Get(other, id) != Some(category)
  }

  function PerClass(gold: Labelling, predicted: Labelling, category: string): Counts {
    Counts(
      |Shared(gold, predicted, category)|,
      |Unshared(predicted, gold, category)|,
      |Unshared(gold, predicted, category)|,
      |WithLabel(gold, category)|)
  }

  datatype ClassificationReport = ClassificationReport(
    perClass: map<string, Counts>, supported: seq<string>, macroPrecision: real, macroRecall: real, macroF1: real)

  function Labels(gold: Labelling, predicted: Labelling): seq<string> {
    Sorted(gold.Values + predicted.Values)
  }

  function ClassMetrics(gold: Labelling, predicted: Labelling, labels: seq<string>): seq<Counts>
  {
    if labels == [] then []
    else ClassMetrics(gold, predicted, labels[..|labels| - 1]) + [PerClass(gold, predicted, labels[|labels| - 1])]
  }

  lemma MetricsStep(gold: Labelling, predicted: Labelling, labels: seq<string>, category: string)
    ensures ClassMetrics(gold, predicted, labels + [category])
         == ClassMetrics(gold, predicted, labels) + [PerClass(gold, predicted, category)]
  {
    assert (labels + [category])[..|labels|] == labels;
  }

  lemma {:induction false} MetricsAt(gold: Labelling, predicted: Labelling, labels: seq<string>)
    ensures |ClassMetrics(gold, predicted, labels)| == |labels|
    ensures forall i :: 0 <= i < |labels| ==> ClassMetrics(gold, predicted, labels)[i] == PerClass(gold, predicted, labels[i])
  {
    if labels != [] {
      MetricsAt(gold, predicted, labels[..|labels| - 1]);
    }
  }

  ghost predicate PerClassSoFar(gold: Labelling, predicted: Labelling, perClass: map<string, Counts>) {
    forall category :: category in perClass ==> perClass[category] == PerClass(gold, predicted, category)
  }

  method Classify(gold: Labelling, predicted: Labelling) returns (report: ClassificationReport)
    ensures report.perClass.Keys == gold.Values + predicted.Values
    ensures PerClassSoFar(gold, predicted, report.perClass)
    ensures report.supported == Sorted(gold.Values) && Ascends(report.supported)
    ensures var metrics := ClassMetrics(gold, predicted, Labels(gold, predicted));
            && report.macroPrecision == Mean(Precisions(metrics))
            && report.macroRecall == Mean(Recalls(metrics))
            && report.macroF1 == Mean(F1s(metrics))
  {
    var labels := Sorted(gold.Values + predicted.Values);
    var perClass: map<string, Counts> := map[];
    var metrics: seq<Counts> := [];
    for i := 0 to |labels|
      invariant forall category :: category in perClass <==> category in labels[..i]
      invariant PerClassSoFar(gold, predicted, perClass)
      invariant metrics == ClassMetrics(gold, predicted, labels[..i])
    {
      var category := labels[i];
      var truePositive := |Shared(gold, predicted, category)|;
      var falsePositive := |Unshared(predicted, gold, category)|;
      var falseNegative := |Unshared(gold, predicted, category)|;
      var support := |WithLabel(gold, category)|;
      assert labels[..i + 1] == labels[..i] + [category];
      perClass := perClass[category := Counts(truePositive, falsePositive, falseNegative, support)];
      metrics := metrics + [perClass[category]];
      MetricsStep(gold, predicted, labels[..i], category);
    }
    assert labels[..|labels|] == labels;
    forall category
      ensures category in perClass <==> category in gold.Values + predicted.Values
    {
      SortedMembers(gold.Values + predicted.Values, category);
    }
    SortedAscends(gold.Values);
    report := ClassificationReport(
      perClass, Sorted(gold.Values), Mean(Precisions(metrics)), Mean(Recalls(metrics)), Mean(F1s(metrics)));
  }

  // ----- counts are conserved

  /** The ids of a labelling whose category is among the first `n`. */
  function Covered(m: Labelling, labels: seq<string>, n: nat): set<string>
    requires n <= |labels|
  {
    set id | id in m && m[id] in labels[..n]
  }

  lemma SplitClass(m: Labelling, other: Labelling, category: string)
    ensures |Shared(m, other, category)| + |Unshared(m, other, category)| == |WithLabel(m, category)|
    ensures Shared(m, other, category) == WithLabel(m, category) * WithLabel(other, category)
    ensures Unshared(m, other, category) == WithLabel(m, category) - WithLabel(other, category)
  {
    assert Shared(m, other, category) + Unshared(m, other, category) == WithLabel(m, category);
  }

  /** True positives and false positives are the predictions of a label; true positives and false
      negatives its gold entries, which are its support. */
  lemma ClassPartitions(gold: Labelling, predicted: Labelling, category: string)
    ensures var c := PerClass(gold, predicted, category);
            && c.truePositive + c.falsePositive == |WithLabel(predicted, category)|
            && c.truePositive + c.falseNegative == c.support == |WithLabel(gold, category)|
  {
    SplitClass(gold, predicted, category);
    SplitClass(predicted, gold, category);
    assert Shared(gold, predicted, category) == Shared(predicted, gold, category);
  }

  function SumOf(metrics: seq<Counts>): Counts {
    if metrics == [] then Counts(0, 0, 0, 0)
    else
      var s, c := SumOf(metrics[..|metrics| - 1]), metrics[|metrics| - 1];
      Counts(s.truePositive + c.truePositive, s.falsePositive + c.falsePositive, s.falseNegative + c.falseNegative, s.support + c.support)
  }

  lemma SumStep(metrics: seq<Counts>, c: Counts)
    ensures var s, t := SumOf(metrics), SumOf(metrics + [c]);
            && t.support == s.support + c.support
            && t.truePositive + t.falseNegative == s.truePositive + s.falseNegative + (c.truePositive + c.falseNegative)
            && t.truePositive + t.falsePositive == s.truePositive + s.falsePositive + (c.truePositive + c.falsePositive)
  {
    assert (metrics + [c])[..|metrics|] == metrics;
  }

  lemma CoveredStep(m: Labelling, labels: seq<string>, n: nat)
    requires n < |labels| && forall i :: 0 <= i < n ==> labels[i] != labels[n]
    ensures |Covered(m, labels, n + 1)| == |Covered(m, labels, n)| + |WithLabel(m, labels[n])|
  {
    assert labels[..n + 1] == labels[..n] + [labels[n]];
    assert labels[n] !in labels[..n];
    assert Covered(m, labels, n + 1) == Covered(m, labels, n) + WithLabel(m, labels[n]);
    assert Covered(m, labels, n) !! WithLabel(m, labels[n]);
  }

  lemma {:induction false} SumsCover(gold: Labelling, predicted: Labelling, labels: seq<string>, n: nat)
    requires n <= |labels| && Distinct(labels)
    ensures var s := SumOf(ClassMetrics(gold, predicted, labels[..n]));
            && s.support == |Covered(gold, labels, n)|
            && s.truePositive + s.falseNegative == |Covered(gold, labels, n)|
            && s.truePositive + s.falsePositive == |Covered(predicted, labels, n)|
  {
    if n > 0 {
      SumsCover(gold, predicted, labels, n - 1);
      CoveredStep(gold, labels, n - 1);
      CoveredStep(predicted, labels, n - 1);
      ClassPartitions(gold, predicted, labels[n - 1]);
      assert labels[..n] == labels[..n - 1] + [labels[n - 1]];
      MetricsStep(gold, predicted, labels[..n - 1], labels[n - 1]);
      SumStep(ClassMetrics(gold, predicted, labels[..n - 1]), PerClass(gold, predicted, labels[n - 1]));
    }
  }

  lemma CoversAll(gold: Labelling, predicted: Labelling, m: Labelling)
    requires m == gold || m == predicted
    ensures var labels := Labels(gold, predicted);
            |Covered(m, labels, |labels|)| == |m|
  {
    var labels := Labels(gold, predicted);
    assert labels[..|labels|] == labels;
    forall id | id in m
      ensures id in Covered(m, labels, |labels|)
    {
      SortedMembers(gold.Values + predicted.Values, m[id]);
    }
    assert Covered(m, labels, |labels|) == m.Keys;
    assert |m.Keys| == |m|;
  }

  /** Over all labels the supports sum to the gold entries, true and false positives to the
      predictions, and true positives and false negatives to the gold entries again. */
  lemma CountsAreConserved(gold: Labelling, predicted: Labelling)
    ensures var s := SumOf(ClassMetrics(gold, predicted, Labels(gold, predicted)));
            && s.support == |gold|
            && s.truePositive + s.falseNegative == |gold|
            && s.truePositive + s.falsePositive == |predicted|
  {
    var labels := Labels(gold, predicted);
    SortedDistinct(gold.Values + predicted.Values);
    SumsCover(gold, predicted, labels, |labels|);
    assert labels[..|labels|] == labels;
    CoversAll(gold, predicted, gold);
    CoversAll(gold, predicted, predicted);
  }

  /** A class has no error exactly when the two labellings give it to the same ids. */
  lemma FlawlessClass(gold: Labelling, predicted: Labelling, category: string)
    ensures Flawless(PerClass(gold, predicted, category)) <==> SameClass(gold, predicted, category)
  {
    var hit, extra, missed := Shared(gold, predicted, category), Unshared(predicted, gold, category), Unshared(gold, predicted, category);
    SplitClass(gold, predicted, category);
    SplitClass(predicted, gold, category);
    assert |extra| == 0 <==> extra == {};
    assert |missed| == 0 <==> missed == {};
    assert |hit| == 0 <==> hit == {};
  }

  lemma SameClassesSameMap(gold: Labelling, predicted: Labelling)
    requires forall category :: category in gold.Values + predicted.Values ==> WithLabel(gold, category) == WithLabel(predicted, category)
    ensures gold == predicted
  {
    forall id
      ensures id in gold <==> id in predicted
      ensures id in gold ==> id in predicted && gold[id] == predicted[id]
    {
      if id in gold {
        assert id in WithLabel(gold, gold[id]);
      }
      if id in predicted {
        assert id in WithLabel(predicted, predicted[id]);
      }
    }
  }

  ghost predicate SameClass(gold: Labelling, predicted: Labelling, category: string) {
    WithLabel(gold, category) == WithLabel(predicted, category) && WithLabel(gold, category) != {}
  }

  lemma ClassesAgree(gold: Labelling, predicted: Labelling)
    ensures (forall category :: category in gold.Values + predicted.Values ==> SameClass(gold, predicted, category)) <==> predicted == gold
  {
    if forall category :: category in gold.Values + predicted.Values ==> SameClass(gold, predicted, category) {
      SameClassesSameMap(gold, predicted);
    }
    if predicted == gold {
      forall category | category in gold.Values + predicted.Values
        ensures SameClass(gold, predicted, category)
      {
        ValueHasKey(gold, category);
      }
    }
  }

  lemma LabelsAgree(gold: Labelling, predicted: Labelling, labels: seq<string>)
    requires labels == Labels(gold, predicted)
    ensures (forall i :: 0 <= i < |labels| ==> SameClass(gold, predicted, labels[i])) <==> predicted == gold
    ensures predicted == gold ==> (labels != [] <==> gold != map[])
  {
    ClassesAgree(gold, predicted);
    forall category
      ensures category in labels <==> category in gold.Values + predicted.Values
    {
      SortedMembers(gold.Values + predicted.Values, category);
    }
    if gold != map[] {
      var id :| id in gold;
      assert gold[id] in labels;
    }
    if labels != [] {
      assert labels[0] in gold.Values + predicted.Values;
    }
  }

  /** The macro F1 of a classification is 1 exactly when the predictions are the gold labels and
      there are any. */
  lemma PerfectClassification(gold: Labelling, predicted: Labelling)
    ensures var macroF1 := Mean(F1s(ClassMetrics(gold, predicted, Labels(gold, predicted))));
            0.0 <= macroF1 <= 1.0 && (macroF1 == 1.0 <==> predicted == gold && gold != map[])
  {
    var labels := Labels(gold, predicted);
    var metrics := ClassMetrics(gold, predicted, labels);
    MacroIsOne(metrics);
    MetricsAt(gold, predicted, labels);
    forall i | 0 <= i < |labels|
      ensures Flawless(metrics[i]) <==> SameClass(gold, predicted, labels[i])
    {
      FlawlessClass(gold, predicted, labels[i]);
    }
    LabelsAgree(gold, predicted, labels);
  }

  lemma ValueHasKey(m: Labelling, category: string)
    requires category in m.Values
    ensures WithLabel(m, category) != {}
  {
    var k :| k in m && m[k] == category;
    assert k in WithLabel(m, category);
  }

  // ----- fields

  /** An example's fields; a null value counts as absent. */
  type Fields = map<string, Option<string>>

  type Examples = map<string, Fields>

  function Value(examples: Examples, id: string, field: string): Option<string> {
    if id in examples && field in examples[id] then examples[id][field] else None
  }

  /** How the two values of one example compare. */
  datatype Match = Hit | Wrong | Missed | Extra | Neither

  function MatchOf(gold: Option<string>, predicted: Option<string>): Match {
    if gold.Some? && predicted.Some? then (if gold == predicted then Hit else Wrong)
    else if gold.Some? then Missed
    else if predicted.Some? then Extra
    else Neither
  }

  function Among(ids: set<string>, gold: Examples, predicted: Examples, field: string, kind: Match): set<string> {
    set id | id in ids && MatchOf(Value(gold, id, field), Value(predicted, id, field)) == kind
  }

  function Present(ids: set<string>, examples: Examples, field: string): set<string> {
    set id | id in ids && Value(examples, id, field).Some?
  }

  /** The counts of a field over some examples: a wrong value is both an extra and a missed one. */
  function FieldCounts(ids: set<string>, gold: Examples, predicted: Examples, field: string): Counts {
    var hit, wrong := |Among(ids, gold, predicted, field, Hit)|, |Among(ids, gold, predicted, field, Wrong)|;
    var missed, extra := |Among(ids, gold, predicted, field, Missed)|, |Among(ids, gold, predicted, field, Extra)|;
    Counts(hit, wrong + extra, wrong + missed, |Present(ids, gold, field)|)
  }

  lemma CountOne(ids: set<string>, gold: Examples, predicted: Examples, field: string, id: string, kind: Match)
    requires id !in ids
    ensures |Among(ids + {id}, gold, predicted, field, kind)|
         == |Among(ids, gold, predicted, field, kind)|
          + if MatchOf(Value(gold, id, field), Value(predicted, id, field)) == kind then 1 else 0
  {
    var before := Among(ids, gold, predicted, field, kind);
    assert Among(ids + {id}, gold, predicted, field, kind)
        == if MatchOf(Value(gold, id, field), Value(predicted, id, field)) == kind then before + {id} else before;
  }

  lemma CountSupport(ids: set<string>, gold: Examples, field: string, id: string)
    requires id !in ids
    ensures |Present(ids + {id}, gold, field)| == |Present(ids, gold, field)| + if Value(gold, id, field).Some? then 1 else 0
  {
    var before := Present(ids, gold, field);
    assert Present(ids + {id}, gold, field) == if Value(gold, id, field).Some? then before + {id} else before;
  }

  lemma CountsStep(ids: set<string>, gold: Examples, predicted: Examples, field: string, id: string)
    requires id !in ids
    ensures var c := FieldCounts(ids, gold, predicted, field);
            var m := MatchOf(Value(gold, id, field), Value(predicted, id, field));
            FieldCounts(ids + {id}, gold, predicted, field)
            == Counts(
                 c.truePositive + if m == Hit then 1 else 0,
                 c.falsePositive + if m == Wrong || m == Extra then 1 else 0,
                 c.falseNegative + if m == Wrong || m == Missed then 1 else 0,
                 c.support + if m == Hit || m == Wrong || m == Missed then 1 else 0)
  {
    CountOne(ids, gold, predicted, field, id, Hit);
    CountOne(ids, gold, predicted, field, id, Wrong);
    CountOne(ids, gold, predicted, field, id, Missed);
    CountOne(ids, gold, predicted, field, id, Extra);
    CountSupport(ids, gold, field, id);
  }

  lemma TakeOne(all: set<string>, left: set<string>, id: string)
    requires id in left && left <= all
    ensures all - left + {id} == all - (left - {id})
  {
  }

  lemma MatchCases(gold: Option<string>, predicted: Option<string>)
    ensures MatchOf(gold, predicted) == Hit <==> gold.Some? && predicted.Some? && gold.value == predicted.value
    ensures MatchOf(gold, predicted) == Wrong <==> gold.Some? && predicted.Some? && gold.value != predicted.value
    ensures MatchOf(gold, predicted) == Missed <==> gold.Some? && predicted.None?
    ensures MatchOf(gold, predicted) == Extra <==> gold.None? && predicted.Some?
  {
  }

  method CountField(gold: Examples, predicted: Examples, field: string) returns (counts: Counts)
    ensures counts == FieldCounts(gold.Keys, gold, predicted, field)
  {
    var truePositive, falsePositive, falseNegative, support := 0, 0, 0, 0;
    var left := gold.Keys;
    while left != {}
      invariant left <= gold.Keys
      invariant Counts(truePositive, falsePositive, falseNegative, support) == FieldCounts(gold.Keys - left, gold, predicted, field)
      decreases |left|
    {
      var id :| id in left;
      CountsStep(gold.Keys - left, gold, predicted, field, id);
      TakeOne(gold.Keys, left, id);
      var goldValue, predictedValue := Value(gold, id, field), Value(predicted, id, field);
      MatchCases(goldValue, predictedValue);
      support := support + if goldValue.Some? then 1 else 0;
      if goldValue.Some? && predictedValue.Some? && goldValue.value == predictedValue.value {
        truePositive := truePositive + 1;
      } else if goldValue.Some? && predictedValue.Some? {
        falsePositive := falsePositive + 1;
        falseNegative := falseNegative + 1;
      } else if goldValue.Some? {
        falseNegative := falseNegative + 1;
      } else if predictedValue.Some? {
        falsePositive := falsePositive + 1;
      }
      left := left - {id};
    }
    assert gold.Keys - left == gold.Keys;
    counts := Counts(truePositive, falsePositive, falseNegative, support);
  }

  datatype FieldReport = FieldReport(perField: map<string, Counts>, macroPrecision: real, macroRecall: real, macroF1: real)

  /** The fields without repetition, in their first order, as the report's dictionary keeps them. */
  function Once(fields: seq<string>): seq<string> {
    if fields == [] then []
    else
      var before := Once(fields[..|fields| - 1]);
      if fields[|fields| - 1] in before then before else before + [fields[|fields| - 1]]
  }

  /** The counts of the fields that occur in the gold examples at all. */
  function Supported(gold: Examples, predicted: Examples, fields: seq<string>): seq<Counts> {
    if fields == [] then []
    else
      var before := Supported(gold, predicted, fields[..|fields| - 1]);
      var c := FieldCounts(gold.Keys, gold, predicted, fields[|fields| - 1]);
      if c.support > 0 then before + [c] else before
  }

  lemma OnceStep(fields: seq<string>, f: string)
    ensures Once(fields + [f]) == if f in fields then Once(fields) else Once(fields) + [f]
  {
    assert (fields + [f])[..|fields|] == fields;
    OnceMembers(fields);
  }

  lemma {:induction false} OnceMembers(fields: seq<string>)
    ensures forall f :: f in Once(fields) <==> f in fields
  {
    if fields != [] {
      OnceMembers(fields[..|fields| - 1]);
      assert fields == fields[..|fields| - 1] + [fields[|fields| - 1]];
    }
  }

  lemma SupportedStep(gold: Examples, predicted: Examples, fields: seq<string>, f: string)
    ensures var c := FieldCounts(gold.Keys, gold, predicted, f);
            var before := Supported(gold, predicted, fields);
            Supported(gold, predicted, fields + [f]) == if c.support > 0 then before + [c] else before
  {
    assert (fields + [f])[..|fields|] == fields;
  }

  method SupportedOf(gold: Examples, predicted: Examples, perField: map<string, Counts>, order: seq<string>) returns (supported: seq<Counts>)
    requires forall f :: f in order ==> f in perField && perField[f] == FieldCounts(gold.Keys, gold, predicted, f)
    ensures supported == Supported(gold, predicted, order)
  {
    supported := [];
    for i := 0 to |order|
      invariant supported == Supported(gold, predicted, order[..i])
    {
      assert order[..i + 1] == order[..i] + [order[i]];
      SupportedStep(gold, predicted, order[..i], order[i]);
      if perField[order[i]].support > 0 {
        supported := supported + [perField[order[i]]];
      }
    }
    assert order[..|order|] == order;
  }

  method ReportFields(gold: Examples, predicted: Examples, fields: seq<string>) returns (report: FieldReport)
    ensures forall f :: f in report.perField <==> f in fields
    ensures forall f :: f in report.perField ==> report.perField[f] == FieldCounts(gold.Keys, gold, predicted, f)
    ensures var supported := Supported(gold, predicted, Once(fields));
            && report.macroPrecision == Mean(Precisions(supported))
            && report.macroRecall == Mean(Recalls(supported))
            && report.macroF1 == Mean(F1s(supported))
  {
    var perField: map<string, Counts> := map[];
    var order: seq<string> := [];
    for i := 0 to |fields|
      invariant order == Once(fields[..i])
      invariant forall f :: f in perField <==> f in fields[..i]
      invariant forall f :: f in perField ==> perField[f] == FieldCounts(gold.Keys, gold, predicted, f)
    {
      var counts := CountField(gold, predicted, fields[i]);
      assert fields[..i + 1] == fields[..i] + [fields[i]];
      OnceStep(fields[..i], fields[i]);
      if fields[i] !in perField {
        order := order + [fields[i]];
      }
      perField := perField[fields[i] := counts];
    }
    assert fields[..|fields|] == fields;
    OnceMembers(fields);
    var supported := SupportedOf(gold, predicted, perField, order);
    report := FieldReport(perField, Mean(Precisions(supported)), Mean(Recalls(supported)), Mean(F1s(supported)));
  }

  lemma ThreeParts(a: set<string>, b: set<string>, c: set<string>)
    requires a !! b && a !! c && b !! c
    ensures |a + b + c| == |a| + |b| + |c|
  {
  }

  lemma PartsOf(gold: Examples, predicted: Examples, field: string)
    ensures var hit, wrong := Among(gold.Keys, gold, predicted, field, Hit), Among(gold.Keys, gold, predicted, field, Wrong);
            && Present(gold.Keys, gold, field) == hit + wrong + Among(gold.Keys, gold, predicted, field, Missed)
            && Present(gold.Keys, predicted, field) == hit + wrong + Among(gold.Keys, gold, predicted, field, Extra)
  {
  }

  /** Per field, true positives and false negatives make the support, and true and false positives
      the gold examples for which something was predicted. */
  lemma FieldPartitions(gold: Examples, predicted: Examples, field: string)
    ensures var c := FieldCounts(gold.Keys, gold, predicted, field);
            && c.truePositive + c.falseNegative == c.support
            && c.truePositive + c.falsePositive == |Present(gold.Keys, predicted, field)|
  {
    var hit, wrong := Among(gold.Keys, gold, predicted, field, Hit), Among(gold.Keys, gold, predicted, field, Wrong);
    var missed, extra := Among(gold.Keys, gold, predicted, field, Missed), Among(gold.Keys, gold, predicted, field, Extra);
    PartsOf(gold, predicted, field);
    ThreeParts(hit, wrong, missed);
    ThreeParts(hit, wrong, extra);
  }

  /** What was predicted for examples outside the gold set does not count. */
  lemma OutsidersAreIgnored(gold: Examples, predicted: Examples, other: Examples, field: string)
    requires forall id :: id in gold ==> Value(predicted, id, field) == Value(other, id, field)
    ensures FieldCounts(gold.Keys, gold, predicted, field) == FieldCounts(gold.Keys, gold, other, field)
  {
    forall kind
      ensures Among(gold.Keys, gold, predicted, field, kind) == Among(gold.Keys, gold, other, field, kind)
    {
    }
  }

  ghost predicate FieldAgrees(gold: Examples, predicted: Examples, field: string) {
    forall id :: id in gold ==> Value(predicted, id, field) == Value(gold, id, field)
  }

  ghost predicate FieldOccurs(gold: Examples, field: string) {
    exists id :: id in gold && Value(gold, id, field).Some?
  }

  lemma SupportOccurs(gold: Examples, predicted: Examples, field: string)
    ensures FieldCounts(gold.Keys, gold, predicted, field).support > 0 <==> FieldOccurs(gold, field)
  {
    var present := Present(gold.Keys, gold, field);
    if FieldOccurs(gold, field) {
      var id :| id in gold && Value(gold, id, field).Some?;
      assert id in present;
    }
    if |present| > 0 {
      var id :| id in present;
    }
  }

  lemma FlawlessField(gold: Examples, predicted: Examples, field: string)
    ensures var c := FieldCounts(gold.Keys, gold, predicted, field);
            (c.falsePositive == 0 && c.falseNegative == 0) <==> FieldAgrees(gold, predicted, field)
    ensures var c := FieldCounts(gold.Keys, gold, predicted, field);
            FieldAgrees(gold, predicted, field) ==> c.truePositive == c.support
  {
    var wrong, missed := Among(gold.Keys, gold, predicted, field, Wrong), Among(gold.Keys, gold, predicted, field, Missed);
    var extra := Among(gold.Keys, gold, predicted, field, Extra);
    FieldPartitions(gold, predicted, field);
    if |wrong| == 0 && |missed| == 0 && |extra| == 0 {
      assert wrong == {} && missed == {} && extra == {};
      forall id | id in gold
        ensures Value(predicted, id, field) == Value(gold, id, field)
      {
        assert id !in wrong && id !in missed && id !in extra;
      }
    }
    if FieldAgrees(gold, predicted, field) {
      assert wrong == {} && missed == {} && extra == {};
    }
  }

  lemma AllFlawless(before: seq<Counts>, c: Counts)
    ensures (forall i :: 0 <= i < |before + [c]| ==> Flawless((before + [c])[i])) <==>
              Flawless(c) && forall i :: 0 <= i < |before| ==> Flawless(before[i])
  {
    if forall i :: 0 <= i < |before + [c]| ==> Flawless((before + [c])[i]) {
      assert Flawless((before + [c])[|before|]);
      assert forall i :: 0 <= i < |before| ==> before[i] == (before + [c])[i];
    }
  }

  lemma {:induction false} SupportedFlawless(gold: Examples, predicted: Examples, fields: seq<string>)
    ensures var s := Supported(gold, predicted, fields);
            && (s != [] <==> exists f :: f in fields && FieldOccurs(gold, f))
            && ((forall i :: 0 <= i < |s| ==> Flawless(s[i])) <==>
                  forall f :: f in fields && FieldOccurs(gold, f) ==> FieldAgrees(gold, predicted, f))
  {
    if fields != [] {
      var last := fields[|fields| - 1];
      var rest := fields[..|fields| - 1];
      assert fields == rest + [last];
      SupportedFlawless(gold, predicted, rest);
      SupportOccurs(gold, predicted, last);
      FlawlessField(gold, predicted, last);
      AllFlawless(Supported(gold, predicted, rest), FieldCounts(gold.Keys, gold, predicted, last));
    }
  }

  /** The macro F1 of a field report is 1 exactly when some field occurs in the gold examples and
      every field that does is predicted as it stands, absence included. A field that no gold example
      has is left out of it, so values invented for it cost nothing. */
  lemma PerfectFields(gold: Examples, predicted: Examples, fields: seq<string>)
    ensures var macroF1 := Mean(F1s(Supported(gold, predicted, Once(fields))));
            macroF1 == 1.0 <==>
              && (exists f :: f in fields && FieldOccurs(gold, f))
              && (forall f :: f in fields && FieldOccurs(gold, f) ==> FieldAgrees(gold, predicted, f))
  {
    var s := Supported(gold, predicted, Once(fields));
    OnceMembers(fields);
    SupportedFlawless(gold, predicted, Once(fields));
    MacroIsOne(s);
  }

  // ----- what the figures say

  /** Precision is the share of the predicted that is right, recall the share of the gold that was
      found; each is 0 where there is nothing to share. */
  lemma SharesExactly(c: Counts)
    ensures Precision(c) * (c.truePositive + c.falsePositive) as real == c.truePositive as real
    ensures Recall(c) * (c.truePositive + c.falseNegative) as real == c.truePositive as real
    ensures c.truePositive + c.falsePositive == 0 ==> Precision(c) == 0.0
    ensures c.truePositive + c.falseNegative == 0 ==> Recall(c) == 0.0
  {
    if c.truePositive + c.falsePositive > 0 {
      Quotient(c.truePositive, c.truePositive + c.falsePositive);
    }
    if c.truePositive + c.falseNegative > 0 {
      Quotient(c.truePositive, c.truePositive + c.falseNegative);
    }
  }

  /** A mean times the number of its values is their sum. */
  lemma MeanExactly(values: seq<real>)
    ensures Mean(values) * |values| as real == Sum(values)
    ensures values == [] ==> Mean(values) == 0.0
  {
    if values != [] {
      var sum, n := Sum(values), |values| as real;
      assert Mean(values) == sum / n;
      Divided(sum, n);
    }
  }

  lemma SumAppends(values: seq<real>, last: real)
    ensures Sum(values + [last]) == Sum(values) + last && Sum([]) == 0.0
  {
    assert (values + [last])[..|values|] == values;
  }

  lemma Divided(x: real, n: real)
    requires n > 0.0
    ensures x / n * n == x
  {
  }

  /** The counts of a class: ids that both labellings put there, that only the prediction puts there,
      that only the gold labels put there, and that the gold labels put there at all. */
  lemma ClassCountsExactly(gold: Labelling, predicted: Labelling, category: string)
    ensures var c := PerClass(gold, predicted, category);
            && c.truePositive == |set id | id in gold && id in predicted && gold[id] == category && predicted[id] == category|
            && c.falsePositive == |set id | id in predicted && predicted[id] == category && !(id in gold && gold[id] == category)|
            && c.falseNegative == |set id | id in gold && gold[id] == category && !(id in predicted && predicted[id] == category)|
            && c.support == |set id | id in gold && gold[id] == category|
  {
    assert Shared(gold, predicted, category)
        == set id | id in gold && id in predicted && gold[id] == category && predicted[id] == category;
    assert Unshared(predicted, gold, category)
        == set id | id in predicted && predicted[id] == category && !(id in gold && gold[id] == category);
    assert Unshared(gold, predicted, category)
        == set id | id in gold && gold[id] == category && !(id in predicted && predicted[id] == category);
  }

  predicate HasValue(examples: Examples, id: string, field: string) {
    id in examples && field in examples[id] && examples[id][field].Some?
  }

  predicate SameValue(gold: Examples, predicted: Examples, id: string, field: string) {
    HasValue(gold, id, field) && HasValue(predicted, id, field) && gold[id][field] == predicted[id][field]
  }

  lemma FieldMatches(gold: Examples, predicted: Examples, id: string, field: string)
    ensures var m := MatchOf(Value(gold, id, field), Value(predicted, id, field));
            && (m == Hit <==> SameValue(gold, predicted, id, field))
            && (m == Wrong || m == Extra <==> HasValue(predicted, id, field) && !SameValue(gold, predicted, id, field))
            && (m == Wrong || m == Missed <==> HasValue(gold, id, field) && !SameValue(gold, predicted, id, field))
  {
  }

  lemma JoinMatches(gold: Examples, predicted: Examples, field: string, a: Match, b: Match, s: set<string>)
    requires a != b
    requires forall id :: id in s <==> id in gold && MatchOf(Value(gold, id, field), Value(predicted, id, field)) in {a, b}
    ensures |Among(gold.Keys, gold, predicted, field, a)| + |Among(gold.Keys, gold, predicted, field, b)| == |s|
  {
    var first, second := Among(gold.Keys, gold, predicted, field, a), Among(gold.Keys, gold, predicted, field, b);
    assert first !! second;
    assert first + second == s;
  }

  function RightIds(gold: Examples, predicted: Examples, field: string): set<string> {
    set id | id in gold && SameValue(gold, predicted, id, field)
  }

  /** The gold examples with a prediction that is not right. */
  function FalselyPredicted(gold: Examples, predicted: Examples, field: string): set<string> {
    set id | id in gold && HasValue(predicted, id, field) && !SameValue(gold, predicted, id, field)
  }

  /** The gold examples with a value that was not found right. */
  function NotFound(gold: Examples, predicted: Examples, field: string): set<string> {
    set id | id in gold && HasValue(gold, id, field) && !SameValue(gold, predicted, id, field)
  }

  /** The counts of a field over the gold examples: the right values; the predicted ones that are not
      right; the gold ones that were not found right; and the gold ones. */
  lemma FieldCountsExactly(gold: Examples, predicted: Examples, field: string)
    ensures var c := FieldCounts(gold.Keys, gold, predicted, field);
            && c.truePositive == |RightIds(gold, predicted, field)|
            && c.falsePositive == |FalselyPredicted(gold, predicted, field)|
            && c.falseNegative == |NotFound(gold, predicted, field)|
            && c.support == |set id | id in gold && HasValue(gold, id, field)|
  {
    forall id
      ensures id in Among(gold.Keys, gold, predicted, field, Hit) <==> id in RightIds(gold, predicted, field)
      ensures id in FalselyPredicted(gold, predicted, field) <==>
                id in gold && MatchOf(Value(gold, id, field), Value(predicted, id, field)) in {Wrong, Extra}
      ensures id in NotFound(gold, predicted, field) <==>
                id in gold && MatchOf(Value(gold, id, field), Value(predicted, id, field)) in {Wrong, Missed}
    {
      FieldMatches(gold, predicted, id, field);
    }
    assert Among(gold.Keys, gold, predicted, field, Hit) == RightIds(gold, predicted, field);
    JoinMatches(gold, predicted, field, Wrong, Extra, FalselyPredicted(gold, predicted, field));
    JoinMatches(gold, predicted, field, Wrong, Missed, NotFound(gold, predicted, field));
    PresentIds(gold, field);
  }

  lemma PresentIds(gold: Examples, field: string)
    ensures Present(gold.Keys, gold, field) == set id | id in gold && HasValue(gold, id, field)
  {
  }
}
