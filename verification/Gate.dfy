/** The compatibility gate in front of every dimension: a list of checks on the whole set of
    records, each of which is clear, leaves a note about symmetric absence, or blocks. */
module Gate {
  import opened Wrappers
  import opened Contracts

  datatype Axis = Family | Currency | Segments | Channel | NewCustomer | Mechanism | Secured

  /** A record's evidence on one axis; absent when the record says nothing usable. */
  datatype AxisValue =
    | FamilyValue(family: ProductFamily)
    | TextValue(text: string)
    | SegmentsValue(keys: multiset<string>)
    | ChannelValue(channel: SalesChannel)
    | FlagValue(flag: bool)

  datatype Note = ChannelNote | NewCustomerNote | MechanismNote | SecuredNote | ValidityNote

  datatype Check = StatusCheck | AxisCheck(axis: Axis) | AsOfCheck | ObservedCheck | ValidityCheck

  datatype Verdict = Clear | Noted(note: Note) | Blocked(reason: Reason) | Raised

  datatype NaiveAsOf = NaiveAsOf

  /** A blocking reason if any, and the absence notes. */
  type Outcome = Result<(Option<Reason>, seq<Note>), NaiveAsOf>

  const CHECKS: seq<Check> := [
    StatusCheck, AxisCheck(Family), AxisCheck(Currency), AxisCheck(Segments), AxisCheck(Channel),
    AxisCheck(NewCustomer), AxisCheck(Mechanism), AxisCheck(Secured), AsOfCheck, ObservedCheck, ValidityCheck]

  function Value(r: Campaign, axis: Axis): Option<AxisValue> {
    match axis
    case Family =>
      if r.family == UnknownFamily || r.family == OtherFamily then None else Some(FamilyValue(r.family))
    case Currency => if r.context.currency.None? then None else Some(TextValue(r.context.currency.value))
    case Segments => if r.context.segments == [] then None else Some(SegmentsValue(multiset(r.context.segments)))
    case Channel => if r.context.channel == UnknownChannel then None else Some(ChannelValue(r.context.channel))
    case NewCustomer =>
      if r.context.newCustomerOnly.None? then None else Some(FlagValue(r.context.newCustomerOnly.value))
    case Mechanism => if r.context.mechanism.None? then None else Some(TextValue(r.context.mechanism.value))
    case Secured => if r.context.secured.None? then None else Some(FlagValue(r.context.secured.value))
  }

  /** The note an optional axis leaves when no record has evidence; the required axes have none. */
  function AbsenceNote(axis: Axis): Option<Note> {
    match axis
    case Channel => Some(ChannelNote)
    case NewCustomer => Some(NewCustomerNote)
    case Mechanism => Some(MechanismNote)
    case Secured => Some(SecuredNote)
    case _ => None
  }

  function UnknownReason(axis: Axis): Reason {
    match axis
    case Family => ProductFamilyUnknown
    case Currency => CurrencyUnknown
    case Segments => SegmentUnknown
    case Channel => ChannelUnknown
    case NewCustomer => NewCustomerUnknown
    case Mechanism => MechanismUnknown
    case Secured => SecurityUnknown
  }

  function MismatchReason(axis: Axis): Reason {
    match axis
    case Family => ProductFamilyMismatch
    case Currency => CurrencyMismatch
    case Segments => SegmentMismatch
    case Channel => ChannelMismatch
    case NewCustomer => NewCustomerMismatch
    case Mechanism => MechanismMismatch
    case Secured => SecurityMismatch
  }

  function AxisVerdict(records: seq<Campaign>, axis: Axis): Verdict {
    if axis == Secured && exists r :: r in records && r.family != Financing then Clear
    else if AbsenceNote(axis).Some? && forall r :: r in records ==> Value(r, axis).None? then
      Noted(AbsenceNote(axis).value)
    else if exists r :: r in records && Value(r, axis).None? then Blocked(UnknownReason(axis))
    else if exists r, q :: r in records && q in records && Value(r, axis) != Value(q, axis) then
      Blocked(MismatchReason(axis))
    else Clear
  }

  predicate Observed(r: Campaign, asOf: AsOf) {
    match asOf
    case At(time) => r.observedAt.instant <= time.instant
    case OnDay(day) => LocalDay(r.observedAt) <= day
    case _ => true
  }

  predicate WindowStated(r: Campaign) {
    && r.validity.Some?
    && !Unclear(r.validity.value.status)
    && (r.validity.value.startsOn.Some? || r.validity.value.endsOn.Some?)
  }

  function SelectedDay(asOf: AsOf): int {
    match asOf
    case Missing => 0
    case OnDay(day) => day
    case At(time) => LocalDay(time)
    case NaiveAt(day) => day
  }

  predicate ActiveOn(r: Campaign, day: int) {
    r.validity.Some? ==>
      && (r.validity.value.startsOn.Some? ==> r.validity.value.startsOn.value <= day)
      && (r.validity.value.endsOn.Some? ==> day <= r.validity.value.endsOn.value)
  }

  function Judge(records: seq<Campaign>, asOf: AsOf, check: Check): Verdict {
    match check
    case StatusCheck =>
      if exists r :: r in records && r.status != Validated then Blocked(RecordNotValidated) else Clear
    case AxisCheck(axis) => AxisVerdict(records, axis)
    case AsOfCheck =>
      (match asOf
       case Missing => Blocked(AsOfRequired)
       case NaiveAt(_) => Raised
       case _ => Clear)
    case ObservedCheck =>
      if exists r :: r in records && !Observed(r, asOf) then Blocked(NotObservedAsOf) else Clear
    case ValidityCheck =>
      if forall r :: r in records ==> !WindowStated(r) then Noted(ValidityNote)
      else if exists r :: r in records && !WindowStated(r) then Blocked(ValidityUnknown)
      else if exists r :: r in records && !ActiveOn(r, SelectedDay(asOf)) then Blocked(CampaignNotActiveAsOf)
      else Clear
  }

  function WithNotes(notes: seq<Note>, rest: Outcome): Outcome {
    if rest.Failure? || rest.value.0.Some? then rest else Success((None, notes + rest.value.1))
  }

  /** The checks from the k-th on: the first one that blocks decides alone, otherwise all notes. */
  function From(records: seq<Campaign>, asOf: AsOf, k: nat): Outcome
    decreases |CHECKS| - k
  {
    if k >= |CHECKS| then Success((None, []))
    else
      match Judge(records, asOf, CHECKS[k])
      case Blocked(reason) => Success((Some(reason), []))
      case Raised => Failure(NaiveAsOf)
      case Noted(note) => WithNotes([note], From(records, asOf, k + 1))
      case Clear => From(records, asOf, k + 1)
  }

  function GateOutcome(records: seq<Campaign>, asOf: AsOf): Outcome {
    From(records, asOf, 0)
  }

  predicate Passes(records: seq<Campaign>, asOf: AsOf) {
    GateOutcome(records, asOf).Success? && GateOutcome(records, asOf).value.0.None?
  }

  // ----- the gate as it is computed

  lemma OneValue<T>(s: set<T>)
    requires s != {}
    ensures |s| == 1 <==> forall x, y :: x in s && y in s ==> x == y
  {
    var x :| x in s;
    if |s| == 1 {
      assert |s - {x}| == 0;
      assert s == {x};
    } else if forall a, b :: a in s && b in s ==> a == b {
      assert s == {x};
    }
  }

  function Values(records: seq<Campaign>, axis: Axis): set<Option<AxisValue>> {
    set r | r in records :: Value(r, axis)
  }

  function Known(values: set<Option<AxisValue>>): set<Option<AxisValue>> {
    set x | x in values && x.Some?
  }

  lemma NothingKnown(records: seq<Campaign>, axis: Axis)
    ensures Known(Values(records, axis)) == {} <==> forall r :: r in records ==> Value(r, axis).None?
  {
    var values := Values(records, axis);
    if Known(values) == {} {
      forall r | r in records
        ensures Value(r, axis).None?
      {
        assert Value(r, axis) in values && Value(r, axis) !in Known(values);
      }
    }
  }

  lemma SomethingUnknown(records: seq<Campaign>, axis: Axis)
    ensures None in Values(records, axis) <==> exists r :: r in records && Value(r, axis).None?
  {
  }

  lemma OneKnown(records: seq<Campaign>, axis: Axis)
    requires records != []
    requires None !in Values(records, axis)
    ensures |Known(Values(records, axis))| == 1 <==>
              !exists r, q :: r in records && q in records && Value(r, axis) != Value(q, axis)
  {
    var values := Values(records, axis);
    assert Known(values) == values;
    assert Value(records[0], axis) in values;
    OneValue(values);
    if forall x, y :: x in values && y in values ==> x == y {
      forall r, q | r in records && q in records
        ensures Value(r, axis) == Value(q, axis)
      {
        assert Value(r, axis) in values && Value(q, axis) in values;
      }
    }
  }

  /** One axis, by the sets of values and of known values. */
  method JudgeAxis(records: seq<Campaign>, axis: Axis) returns (v: Verdict)
    requires records != []
    requires axis == Secured ==> forall r :: r in records ==> r.family == Financing
    ensures v == AxisVerdict(records, axis)
  {
    var values := set r | r in records :: Value(r, axis);
    var known := set x | x in values && x.Some?;
    assert values == Values(records, axis) && known == Known(Values(records, axis));
    NothingKnown(records, axis);
    SomethingUnknown(records, axis);
    if known == {} && AbsenceNote(axis).Some? {
      v := Noted(AbsenceNote(axis).value);
    } else if None in values {
      v := Blocked(UnknownReason(axis));
    } else {
      OneKnown(records, axis);
      v := if |known| != 1 then Blocked(MismatchReason(axis)) else Clear;
    }
  }

  method JudgeObserved(records: seq<Campaign>, asOf: AsOf) returns (v: Verdict)
    ensures v == Judge(records, asOf, ObservedCheck)
  {
    for k := 0 to |records|
      invariant forall j :: 0 <= j < k ==> Observed(records[j], asOf)
    {
      if !Observed(records[k], asOf) {
        return Blocked(NotObservedAsOf);
      }
    }
    v := Clear;
  }

  method JudgeValidity(records: seq<Campaign>, asOf: AsOf) returns (v: Verdict)
    ensures v == Judge(records, asOf, ValidityCheck)
  {
    if forall r :: r in records ==> !WindowStated(r) {
      return Noted(ValidityNote);
    }
    if exists r :: r in records && !WindowStated(r) {
      return Blocked(ValidityUnknown);
    }
    for k := 0 to |records|
      invariant forall j :: 0 <= j < k ==> ActiveOn(records[j], SelectedDay(asOf))
    {
      if !ActiveOn(records[k], SelectedDay(asOf)) {
        return Blocked(CampaignNotActiveAsOf);
      }
    }
    v := Clear;
  }

  /** What one more check does to the answer being built up. */
  lemma Advance(records: seq<Campaign>, asOf: AsOf, notes: seq<Note>, k: nat)
    requires k < |CHECKS|
    requires GateOutcome(records, asOf) == WithNotes(notes, From(records, asOf, k))
    ensures var all, v := GateOutcome(records, asOf), Judge(records, asOf, CHECKS[k]);
            && (v.Blocked? ==> all == Success((Some(v.reason), [])))
            && (v.Raised? ==> all == Failure(NaiveAsOf))
            && (v.Noted? ==> all == WithNotes(notes + [v.note], From(records, asOf, k + 1)))
            && (v.Clear? ==> all == WithNotes(notes, From(records, asOf, k + 1)))
  {
    var v := Judge(records, asOf, CHECKS[k]);
    var rest := From(records, asOf, k + 1);
    if v.Noted? && rest.Success? {
      assert notes + ([v.note] + rest.value.1) == (notes + [v.note]) + rest.value.1;
    }
  }

  lemma WithNoNotes(rest: Outcome)
    ensures WithNotes([], rest) == rest
  {
    if rest.Success? {
      assert [] + rest.value.1 == rest.value.1;
    }
  }

  lemma SameFamily(records: seq<Campaign>)
    requires AxisVerdict(records, Family) == Clear
    ensures forall r, q :: r in records && q in records ==> r.family == q.family
  {
    forall r, q | r in records && q in records
      ensures r.family == q.family
    {
      assert Value(r, Family) == Value(q, Family) && Value(r, Family).Some?;
    }
  }

  /** The seven context axes in order; the security axis matters to financing products only. */
  method JudgeAxes(records: seq<Campaign>, asOf: AsOf) returns (block: Option<Reason>, notes: seq<Note>)
    requires records != []
    requires GateOutcome(records, asOf) == From(records, asOf, 1)
    ensures block.Some? ==> GateOutcome(records, asOf) == Success((block, []))
    ensures block.None? ==> GateOutcome(records, asOf) == WithNotes(notes, From(records, asOf, 8))
  {
    var axes := [Family, Currency, Segments, Channel, NewCustomer, Mechanism, Secured];
    notes := [];
    WithNoNotes(From(records, asOf, 1));
    for i := 0 to |axes|
      invariant GateOutcome(records, asOf) == WithNotes(notes, From(records, asOf, 1 + i))
      invariant i > 0 ==> AxisVerdict(records, Family) == Clear
    {
      assert CHECKS[1 + i] == AxisCheck(axes[i]);
      Advance(records, asOf, notes, 1 + i);
      if i == 6 {
        SameFamily(records);
        assert records[0] in records;
      }
      if axes[i] != Secured || records[0].family == Financing {
        var v := JudgeAxis(records, axes[i]);
        if v.Blocked? {
          return Some(v.reason), [];
        }
        if v.Noted? {
          notes := notes + [v.note];
        }
      }
    }
    block := None;
  }

  method FirstGlobalIncompatibility(records: seq<Campaign>, asOf: AsOf) returns (out: Outcome)
    requires records != []
    ensures out == GateOutcome(records, asOf)
    ensures out.Success? && out.value.0.Some? ==> out.value.1 == []
  {
    WithNoNotes(From(records, asOf, 0));
    WithNoNotes(From(records, asOf, 1));
    Advance(records, asOf, [], 0);
    if exists r :: r in records && r.status != Validated {
      return Success((Some(RecordNotValidated), []));
    }
    var block, notes := JudgeAxes(records, asOf);
    if block.Some? {
      return Success((block, []));
    }
    Advance(records, asOf, notes, 8);
    if asOf.Missing? {
      return Success((Some(AsOfRequired), []));
    }
    if asOf.NaiveAt? {
      return Failure(NaiveAsOf);
    }
    Advance(records, asOf, notes, 9);
    var observed := JudgeObserved(records, asOf);
    if observed.Blocked? {
      return Success((Some(observed.reason), []));
    }
    Advance(records, asOf, notes, 10);
    var validity := JudgeValidity(records, asOf);
    if validity.Blocked? {
      return Success((Some(validity.reason), []));
    }
    if validity.Noted? {
      notes := notes + [validity.note];
    }
    assert From(records, asOf, 11) == Success((None, []));
    assert notes + [] == notes;
    out := Success((None, notes));
  }

  // ----- the gate decomposes into pairs

  function Pair(records: seq<Campaign>, i: nat, j: nat): (pair: seq<Campaign>)
    requires i < |records| && j < |records|
    ensures forall r :: r in pair <==> r == records[i] || r == records[j]
  {
    [records[i], records[j]]
  }

  predicate Stops(v: Verdict) {
    v.Blocked? || v.Raised?
  }

  predicate OneFamily(records: seq<Campaign>) {
    forall r, q :: r in records && q in records ==> r.family == q.family
  }

  lemma IndexOf(records: seq<Campaign>, r: Campaign) returns (i: nat)
    requires r in records
    ensures i < |records| && records[i] == r
  {
    i :| 0 <= i < |records| && records[i] == r;
  }

  /** A check that stops the whole set stops the pair of any two records that show why. */
  lemma StoppedByPair(records: seq<Campaign>, asOf: AsOf, check: Check) returns (i: nat, j: nat)
    requires |records| >= 2
    requires Stops(Judge(records, asOf, check))
    ensures i < |records| && j < |records| && i != j
    ensures Stops(Judge(Pair(records, i, j), asOf, check))
  {
    match check {
      case StatusCheck =>
        var r :| r in records && r.status != Validated;
        i := IndexOf(records, r);
        j := if i == 0 then 1 else 0;
      case AxisCheck(axis) =>
        i, j := AxisStoppedByPair(records, axis);
      case AsOfCheck => i, j := 0, 1;
      case ObservedCheck =>
        var r :| r in records && !Observed(r, asOf);
        i := IndexOf(records, r);
        j := if i == 0 then 1 else 0;
      case ValidityCheck =>
        if exists r :: r in records && !WindowStated(r) {
          var r :| r in records && !WindowStated(r);
          var q :| q in records && WindowStated(q);
          i := IndexOf(records, r);
          j := IndexOf(records, q);
        } else {
          var r :| r in records && !ActiveOn(r, SelectedDay(asOf));
          i := IndexOf(records, r);
          j := if i == 0 then 1 else 0;
        }
    }
  }

  /** A pair is stopped by an axis when one of the two is silent and the other is not (or the axis
      is required), or when the two differ. */
  lemma PairStops(records: seq<Campaign>, i: nat, j: nat, axis: Axis)
    requires i < |records| && j < |records|
    requires axis == Secured ==> records[i].family == Financing && records[j].family == Financing
    requires Value(records[i], axis) != Value(records[j], axis)
          || (Value(records[i], axis).None? && AbsenceNote(axis).None?)
    ensures Stops(AxisVerdict(Pair(records, i, j), axis))
  {
    var pair := Pair(records, i, j);
    assert records[i] in pair && records[j] in pair;
    if Value(records[i], axis) != Value(records[j], axis) {
      assert Value(records[i], axis).Some? || Value(records[j], axis).Some?;
    }
  }

  lemma AxisStoppedByPair(records: seq<Campaign>, axis: Axis) returns (i: nat, j: nat)
    requires |records| >= 2
    requires Stops(AxisVerdict(records, axis))
    ensures i < |records| && j < |records| && i != j
    ensures Stops(AxisVerdict(Pair(records, i, j), axis))
  {
    if exists r, q :: r in records && q in records && Value(r, axis) != Value(q, axis) {
      var r, q :| r in records && q in records && Value(r, axis) != Value(q, axis);
      i := IndexOf(records, r);
      j := IndexOf(records, q);
    } else {
      var r :| r in records && Value(r, axis).None?;
      i := IndexOf(records, r);
      j := if i == 0 then 1 else 0;
      assert forall q :: q in records ==> Value(q, axis) == Value(r, axis);
    }
    assert records[i] in records && records[j] in records;
    PairStops(records, i, j, axis);
  }

  /** A check that does not stop the whole set gives every pair the same verdict. */
  lemma PairAgrees(records: seq<Campaign>, asOf: AsOf, check: Check, i: nat, j: nat)
    requires i < |records| && j < |records| && i != j
    requires check == AxisCheck(Secured) ==> OneFamily(records)
    requires !Stops(Judge(records, asOf, check))
    ensures Judge(Pair(records, i, j), asOf, check) == Judge(records, asOf, check)
  {
    var pair := Pair(records, i, j);
    assert records[i] in pair && records[j] in pair;
  }

  /** The gate passes exactly when no check stops, and then it carries every note in order. */
  lemma {:induction false} PassesFrom(records: seq<Campaign>, asOf: AsOf, k: nat)
    requires k <= |CHECKS|
    ensures (From(records, asOf, k).Success? && From(records, asOf, k).value.0.None?) <==>
              forall c :: k <= c < |CHECKS| ==> !Stops(Judge(records, asOf, CHECKS[c]))
    decreases |CHECKS| - k
  {
    if k < |CHECKS| {
      PassesFrom(records, asOf, k + 1);
      assert (forall c :: k <= c < |CHECKS| ==> !Stops(Judge(records, asOf, CHECKS[c]))) <==>
             (!Stops(Judge(records, asOf, CHECKS[k]))
              && forall c :: k + 1 <= c < |CHECKS| ==> !Stops(Judge(records, asOf, CHECKS[c])));
    }
  }

  lemma {:induction false} SameVerdictsSameOutcome(a: seq<Campaign>, b: seq<Campaign>, asOf: AsOf, k: nat)
    requires k <= |CHECKS|
    requires forall c :: k <= c < |CHECKS| ==> Judge(a, asOf, CHECKS[c]) == Judge(b, asOf, CHECKS[c])
    ensures From(a, asOf, k) == From(b, asOf, k)
    decreases |CHECKS| - k
  {
    if k < |CHECKS| {
      SameVerdictsSameOutcome(a, b, asOf, k + 1);
    }
  }

  /** The outcome depends on the set of records alone. */
  lemma GateIsOfTheSet(a: seq<Campaign>, b: seq<Campaign>, asOf: AsOf)
    requires forall r :: r in a <==> r in b
    ensures GateOutcome(a, asOf) == GateOutcome(b, asOf)
  {
    SameVerdictsSameOutcome(a, b, asOf, 0);
  }

  lemma FamilyCheckMeansOneFamily(records: seq<Campaign>, asOf: AsOf)
    requires !Stops(Judge(records, asOf, CHECKS[1]))
    ensures OneFamily(records)
  {
    SameFamily(records);
  }

  /** Two or more records pass the gate if and only if every two of them do, and then every pair
      leaves exactly the notes the whole set leaves. */
  lemma GateDecomposes(records: seq<Campaign>, asOf: AsOf)
    requires |records| >= 2
    ensures Passes(records, asOf) <==>
              forall i, j :: 0 <= i < j < |records| ==> Passes(Pair(records, i, j), asOf)
    ensures Passes(records, asOf) ==>
              forall i, j :: 0 <= i < j < |records| ==>
                GateOutcome(Pair(records, i, j), asOf) == GateOutcome(records, asOf)
  {
    PassesFrom(records, asOf, 0);
    if Passes(records, asOf) {
      FamilyCheckMeansOneFamily(records, asOf);
      forall i, j | 0 <= i < j < |records|
        ensures GateOutcome(Pair(records, i, j), asOf) == GateOutcome(records, asOf)
      {
        forall c | 0 <= c < |CHECKS|
          ensures Judge(Pair(records, i, j), asOf, CHECKS[c]) == Judge(records, asOf, CHECKS[c])
        {
          PairAgrees(records, asOf, CHECKS[c], i, j);
        }
        SameVerdictsSameOutcome(Pair(records, i, j), records, asOf, 0);
      }
    } else {
      var c :| 0 <= c < |CHECKS| && Stops(Judge(records, asOf, CHECKS[c]));
      var i, j := StoppedByPair(records, asOf, CHECKS[c]);
      PassesFrom(Pair(records, i, j), asOf, 0);
      assert !Passes(Pair(records, i, j), asOf);
      if j < i {
        GateIsOfTheSet(Pair(records, i, j), Pair(records, j, i), asOf);
        assert !Passes(Pair(records, j, i), asOf);
      }
    }
  }
}
