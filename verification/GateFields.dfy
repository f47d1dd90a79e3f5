/** The compatibility gate in the records' own fields: which records pass, which reason comes first
    when they do not, and which notes they leave. */
module GateFields {
  import opened Wrappers
  import opened Contracts
  import opened Gate

  // ----- the first obstacle, check by check

  function StatusObstacle(records: seq<Campaign>): Option<Reason> {
    if exists r :: r in records && r.status != Validated then Some(RecordNotValidated) else None
  }

  function FamilyObstacle(records: seq<Campaign>): Option<Reason> {
    if exists r :: r in records && (r.family == UnknownFamily || r.family == OtherFamily) then Some(ProductFamilyUnknown)
    else if exists r, q :: r in records && q in records && r.family != q.family then Some(ProductFamilyMismatch)
    else None
  }

  function CurrencyObstacle(records: seq<Campaign>): Option<Reason> {
    if exists r :: r in records && r.context.currency.None? then Some(CurrencyUnknown)
    else if exists r, q :: r in records && q in records && r.context.currency != q.context.currency then Some(CurrencyMismatch)
    else None
  }

  /** Segments are compared without regard to their order. */
  function SegmentObstacle(records: seq<Campaign>): Option<Reason> {
    if exists r :: r in records && r.context.segments == [] then Some(SegmentUnknown)
    else if exists r, q :: r in records && q in records && multiset(r.context.segments) != multiset(q.context.segments)
      then Some(SegmentMismatch)
    else None
  }

  function ChannelObstacle(records: seq<Campaign>): Option<Reason> {
    if forall r :: r in records ==> r.context.channel == UnknownChannel then None
    else if exists r :: r in records && r.context.channel == UnknownChannel then Some(ChannelUnknown)
    else if exists r, q :: r in records && q in records && r.context.channel != q.context.channel then Some(ChannelMismatch)
    else None
  }

  function NewCustomerObstacle(records: seq<Campaign>): Option<Reason> {
    if forall r :: r in records ==> r.context.newCustomerOnly.None? then None
    else if exists r :: r in records && r.context.newCustomerOnly.None? then Some(NewCustomerUnknown)
    else if exists r, q :: r in records && q in records && r.context.newCustomerOnly != q.context.newCustomerOnly
      then Some(NewCustomerMismatch)
    else None
  }

  function MechanismObstacle(records: seq<Campaign>): Option<Reason> {
    if forall r :: r in records ==> r.context.mechanism.None? then None
    else if exists r :: r in records && r.context.mechanism.None? then Some(MechanismUnknown)
    else if exists r, q :: r in records && q in records && r.context.mechanism != q.context.mechanism then Some(MechanismMismatch)
    else None
  }

  /** Security matters to financing alone. */
  function SecuredObstacle(records: seq<Campaign>): Option<Reason> {
    if exists r :: r in records && r.family != Financing then None
    else if forall r :: r in records ==> r.context.secured.None? then None
    else if exists r :: r in records && r.context.secured.None? then Some(SecurityUnknown)
    else if exists r, q :: r in records && q in records && r.context.secured != q.context.secured then Some(SecurityMismatch)
    else None
  }

  /** An instant is compared with the instant, a day with the day the timestamp shows in its zone. */
  predicate SeenBy(r: Campaign, asOf: AsOf) {
    match asOf
    case At(time) => r.observedAt.instant <= time.instant
    case OnDay(day) => (r.observedAt.instant + r.observedAt.offset) / 86_400_000_000 <= day
    case _ => true
  }

  predicate States(r: Campaign) {
    r.validity.Some? && r.validity.value.status != Unknown && r.validity.value.status != Ambiguous
    && (r.validity.value.startsOn.Some? || r.validity.value.endsOn.Some?)
  }

  /** The day lies within the stated window, both ends included. */
  predicate RunsOn(r: Campaign, day: int) {
    r.validity.Some? ==>
      && (r.validity.value.startsOn.Some? ==> r.validity.value.startsOn.value <= day)
      && (r.validity.value.endsOn.Some? ==> day <= r.validity.value.endsOn.value)
  }

  function DayOf(asOf: AsOf): int {
    match asOf
    case OnDay(day) => day
    case At(time) => (time.instant + time.offset) / 86_400_000_000
    case NaiveAt(day) => day
    case Missing => 0
  }

  function WindowObstacle(records: seq<Campaign>, asOf: AsOf): Option<Reason> {
    if forall r :: r in records ==> !States(r) then None
    else if exists r :: r in records && !States(r) then Some(ValidityUnknown)
    else if exists r :: r in records && !RunsOn(r, DayOf(asOf)) then Some(CampaignNotActiveAsOf)
    else None
  }

  function TimeObstacle(records: seq<Campaign>, asOf: AsOf): Option<Reason> {
    if asOf.Missing? then Some(AsOfRequired)
    else if exists r :: r in records && !SeenBy(r, asOf) then Some(NotObservedAsOf)
    else WindowObstacle(records, asOf)
  }

  function First(a: Option<Reason>, b: Option<Reason>): Option<Reason> {
    if a.Some? then a else b
  }

  function ContextObstacle(records: seq<Campaign>): Option<Reason> {
    First(StatusObstacle(records), First(FamilyObstacle(records), First(CurrencyObstacle(records),
      First(SegmentObstacle(records), First(ChannelObstacle(records), First(NewCustomerObstacle(records),
        First(MechanismObstacle(records), SecuredObstacle(records))))))))
  }

  // ----- the notes

  function ChannelNotes(records: seq<Campaign>): seq<Note> {
    if forall r :: r in records ==> r.context.channel == UnknownChannel then [ChannelNote] else []
  }

  function NewCustomerNotes(records: seq<Campaign>): seq<Note> {
    if forall r :: r in records ==> r.context.newCustomerOnly.None? then [NewCustomerNote] else []
  }

  function MechanismNotes(records: seq<Campaign>): seq<Note> {
    if forall r :: r in records ==> r.context.mechanism.None? then [MechanismNote] else []
  }

  function SecuredNotes(records: seq<Campaign>): seq<Note> {
    if (forall r :: r in records ==> r.family == Financing) && forall r :: r in records ==> r.context.secured.None?
    then [SecuredNote] else []
  }

  function ValidityNotes(records: seq<Campaign>): seq<Note> {
    if forall r :: r in records ==> !States(r) then [ValidityNote] else []
  }

  function ContextNotes(records: seq<Campaign>): seq<Note> {
    ChannelNotes(records) + (NewCustomerNotes(records) + (MechanismNotes(records) + SecuredNotes(records)))
  }

  // ----- from checks to fields

  /** An obstacle ends the gate without notes; otherwise the notes go in front of the rest. */
  function Then(obstacle: Option<Reason>, notes: seq<Note>, rest: Outcome): Outcome {
    if obstacle.Some? then Success((obstacle, [])) else WithNotes(notes, rest)
  }

  lemma ThenThen(a: Option<Reason>, m: seq<Note>, b: Option<Reason>, n: seq<Note>, rest: Outcome)
    ensures Then(a, m, Then(b, n, rest)) == Then(First(a, b), m + n, rest)
  {
    if rest.Success? {
      assert m + (n + rest.value.1) == m + n + rest.value.1;
    }
  }

  /** The verdict of a check with this obstacle or this note. */
  function Said(obstacle: Option<Reason>, notes: seq<Note>): Verdict {
    if obstacle.Some? then Blocked(obstacle.value) else if notes != [] then Noted(notes[0]) else Clear
  }

  lemma CheckStep(records: seq<Campaign>, asOf: AsOf, k: nat, obstacle: Option<Reason>, notes: seq<Note>)
    requires k < |CHECKS| && |notes| <= 1
    requires Judge(records, asOf, CHECKS[k]) == Said(obstacle, notes)
    ensures From(records, asOf, k) == Then(obstacle, notes, From(records, asOf, k + 1))
  {
    WithNoNotes(From(records, asOf, k + 1));
    if notes != [] {
      assert notes == [notes[0]];
    }
  }

  lemma AxisStep(records: seq<Campaign>, asOf: AsOf, k: nat, axis: Axis, obstacle: Option<Reason>, notes: seq<Note>)
    requires k < |CHECKS| && CHECKS[k] == AxisCheck(axis) && |notes| <= 1
    requires AxisVerdict(records, axis) == Said(obstacle, notes)
    ensures From(records, asOf, k) == Then(obstacle, notes, From(records, asOf, k + 1))
  {
    CheckStep(records, asOf, k, obstacle, notes);
  }

  lemma StatusVerdict(records: seq<Campaign>, asOf: AsOf)
    ensures From(records, asOf, 0) == Then(StatusObstacle(records), [], From(records, asOf, 1))
  {
    CheckStep(records, asOf, 0, StatusObstacle(records), []);
  }

  // Each axis by its field: who is silent, and which two records differ.

  lemma FamilyDiffer(r: Campaign, q: Campaign)
    ensures Value(r, Family).None? <==> r.family == UnknownFamily || r.family == OtherFamily
    ensures Value(r, Family).Some? && Value(q, Family).Some? ==> (Value(r, Family) == Value(q, Family) <==> r.family == q.family)
  {
  }

  lemma FamilyVerdict(records: seq<Campaign>)
    ensures AxisVerdict(records, Family) == Said(FamilyObstacle(records), [])
  {
    forall r, q
      ensures Value(r, Family).None? <==> r.family == UnknownFamily || r.family == OtherFamily
      ensures Value(r, Family).Some? && Value(q, Family).Some? ==> (Value(r, Family) == Value(q, Family) <==> r.family == q.family)
    {
      FamilyDiffer(r, q);
    }
  }

  lemma CurrencyDiffer(r: Campaign, q: Campaign)
    ensures Value(r, Currency).None? <==> r.context.currency.None?
    ensures Value(r, Currency).Some? && Value(q, Currency).Some? ==>
              (Value(r, Currency) == Value(q, Currency) <==> r.context.currency == q.context.currency)
  {
  }

  lemma CurrencyVerdict(records: seq<Campaign>)
    ensures AxisVerdict(records, Currency) == Said(CurrencyObstacle(records), [])
  {
    forall r, q
      ensures Value(r, Currency).None? <==> r.context.currency.None?
      ensures Value(r, Currency).Some? && Value(q, Currency).Some? ==>
                (Value(r, Currency) == Value(q, Currency) <==> r.context.currency == q.context.currency)
    {
      CurrencyDiffer(r, q);
    }
  }

  lemma SegmentsDiffer(r: Campaign, q: Campaign)
    ensures Value(r, Segments).None? <==> r.context.segments == []
    ensures Value(r, Segments).Some? && Value(q, Segments).Some? ==>
              (Value(r, Segments) == Value(q, Segments) <==> multiset(r.context.segments) == multiset(q.context.segments))
  {
  }

  lemma SegmentsVerdict(records: seq<Campaign>)
    ensures AxisVerdict(records, Segments) == Said(SegmentObstacle(records), [])
  {
    forall r, q
      ensures Value(r, Segments).None? <==> r.context.segments == []
      ensures Value(r, Segments).Some? && Value(q, Segments).Some? ==>
                (Value(r, Segments) == Value(q, Segments) <==> multiset(r.context.segments) == multiset(q.context.segments))
    {
      SegmentsDiffer(r, q);
    }
  }

  lemma ChannelDiffer(r: Campaign, q: Campaign)
    ensures Value(r, Channel).None? <==> r.context.channel == UnknownChannel
    ensures Value(r, Channel).Some? && Value(q, Channel).Some? ==>
              (Value(r, Channel) == Value(q, Channel) <==> r.context.channel == q.context.channel)
  {
  }

  lemma ChannelVerdict(records: seq<Campaign>)
    ensures AxisVerdict(records, Channel) == Said(ChannelObstacle(records), ChannelNotes(records))
  {
    forall r, q
      ensures Value(r, Channel).None? <==> r.context.channel == UnknownChannel
      ensures Value(r, Channel).Some? && Value(q, Channel).Some? ==>
                (Value(r, Channel) == Value(q, Channel) <==> r.context.channel == q.context.channel)
    {
      ChannelDiffer(r, q);
    }
  }

  lemma NewCustomerDiffer(r: Campaign, q: Campaign)
    ensures Value(r, NewCustomer).None? <==> r.context.newCustomerOnly.None?
    ensures Value(r, NewCustomer).Some? && Value(q, NewCustomer).Some? ==>
              (Value(r, NewCustomer) == Value(q, NewCustomer) <==> r.context.newCustomerOnly == q.context.newCustomerOnly)
  {
  }

  lemma NewCustomerVerdict(records: seq<Campaign>)
    ensures AxisVerdict(records, NewCustomer) == Said(NewCustomerObstacle(records), NewCustomerNotes(records))
  {
    forall r, q
      ensures Value(r, NewCustomer).None? <==> r.context.newCustomerOnly.None?
      ensures Value(r, NewCustomer).Some? && Value(q, NewCustomer).Some? ==>
                (Value(r, NewCustomer) == Value(q, NewCustomer) <==> r.context.newCustomerOnly == q.context.newCustomerOnly)
    {
      NewCustomerDiffer(r, q);
    }
  }

  lemma MechanismDiffer(r: Campaign, q: Campaign)
    ensures Value(r, Mechanism).None? <==> r.context.mechanism.None?
    ensures Value(r, Mechanism).Some? && Value(q, Mechanism).Some? ==>
              (Value(r, Mechanism) == Value(q, Mechanism) <==> r.context.mechanism == q.context.mechanism)
  {
  }

  lemma MechanismVerdict(records: seq<Campaign>)
    ensures AxisVerdict(records, Mechanism) == Said(MechanismObstacle(records), MechanismNotes(records))
  {
    forall r, q
      ensures Value(r, Mechanism).None? <==> r.context.mechanism.None?
      ensures Value(r, Mechanism).Some? && Value(q, Mechanism).Some? ==>
                (Value(r, Mechanism) == Value(q, Mechanism) <==> r.context.mechanism == q.context.mechanism)
    {
      MechanismDiffer(r, q);
    }
  }

  lemma SecuredDiffer(r: Campaign, q: Campaign)
    ensures Value(r, Secured).None? <==> r.context.secured.None?
    ensures Value(r, Secured) == Value(q, Secured) <==> r.context.secured == q.context.secured
  {
  }

  lemma SecuredVerdict(records: seq<Campaign>)
    ensures AxisVerdict(records, Secured) == Said(SecuredObstacle(records), SecuredNotes(records))
  {
    forall r, q
      ensures Value(r, Secured).None? <==> r.context.secured.None?
      ensures Value(r, Secured) == Value(q, Secured) <==> r.context.secured == q.context.secured
    {
      SecuredDiffer(r, q);
    }
  }

  // ----- the time checks

  lemma TimeFields(r: Campaign, asOf: AsOf)
    ensures Observed(r, asOf) <==> SeenBy(r, asOf)
    ensures WindowStated(r) <==> States(r)
    ensures ActiveOn(r, SelectedDay(asOf)) <==> RunsOn(r, DayOf(asOf))
  {
  }

  lemma ObservedVerdict(records: seq<Campaign>, asOf: AsOf)
    ensures Judge(records, asOf, ObservedCheck)
         == Said(if exists r :: r in records && !SeenBy(r, asOf) then Some(NotObservedAsOf) else None, [])
  {
    forall r
      ensures Observed(r, asOf) <==> SeenBy(r, asOf)
    {
      TimeFields(r, asOf);
    }
  }

  lemma WindowVerdict(records: seq<Campaign>, asOf: AsOf)
    ensures Judge(records, asOf, ValidityCheck) == Said(WindowObstacle(records, asOf), ValidityNotes(records))
  {
    forall r
      ensures WindowStated(r) <==> States(r)
      ensures ActiveOn(r, SelectedDay(asOf)) <==> RunsOn(r, DayOf(asOf))
    {
      TimeFields(r, asOf);
    }
  }

  lemma TimeSteps(records: seq<Campaign>, asOf: AsOf)
    requires !asOf.NaiveAt?
    ensures From(records, asOf, 8) == Then(TimeObstacle(records, asOf), ValidityNotes(records), Success((None, [])))
  {
    if asOf.Missing? {
      CheckStep(records, asOf, 8, Some(AsOfRequired), []);
    } else {
      CheckStep(records, asOf, 8, None, []);
      var unseen: Option<Reason> := if exists r :: r in records && !SeenBy(r, asOf) then Some(NotObservedAsOf) else None;
      ObservedVerdict(records, asOf);
      CheckStep(records, asOf, 9, unseen, []);
      WindowVerdict(records, asOf);
      CheckStep(records, asOf, 10, WindowObstacle(records, asOf), ValidityNotes(records));
      TimeCombined(unseen, WindowObstacle(records, asOf), ValidityNotes(records), From(records, asOf, 11));
    }
  }

  lemma TimeCombined(unseen: Option<Reason>, obstacle: Option<Reason>, notes: seq<Note>, rest: Outcome)
    ensures Then(None, [], Then(unseen, [], Then(obstacle, notes, rest))) == Then(First(unseen, obstacle), notes, rest)
  {
    ThenThen(unseen, [], obstacle, notes, rest);
    ThenThen(None, [], First(unseen, obstacle), notes, rest);
    assert [] + notes == notes;
  }

  lemma OptionalSteps(records: seq<Campaign>, asOf: AsOf)
    ensures From(records, asOf, 4)
         == Then(First(ChannelObstacle(records), First(NewCustomerObstacle(records),
                   First(MechanismObstacle(records), SecuredObstacle(records)))),
                 ContextNotes(records), From(records, asOf, 8))
  {
    ChannelStep(records, asOf);
    NewCustomerStep(records, asOf);
    MechanismStep(records, asOf);
    SecuredStep(records, asOf);
    FourThen(
      ChannelObstacle(records), NewCustomerObstacle(records), MechanismObstacle(records), SecuredObstacle(records),
      ChannelNotes(records), NewCustomerNotes(records), MechanismNotes(records), SecuredNotes(records),
      From(records, asOf, 4), From(records, asOf, 5), From(records, asOf, 6), From(records, asOf, 7), From(records, asOf, 8));
  }

  lemma ChannelStep(records: seq<Campaign>, asOf: AsOf)
    ensures From(records, asOf, 4) == Then(ChannelObstacle(records), ChannelNotes(records), From(records, asOf, 5))
  {
    ChannelVerdict(records);
    AxisStep(records, asOf, 4, Channel, ChannelObstacle(records), ChannelNotes(records));
  }

  lemma NewCustomerStep(records: seq<Campaign>, asOf: AsOf)
    ensures From(records, asOf, 5) == Then(NewCustomerObstacle(records), NewCustomerNotes(records), From(records, asOf, 6))
  {
    NewCustomerVerdict(records);
    AxisStep(records, asOf, 5, NewCustomer, NewCustomerObstacle(records), NewCustomerNotes(records));
  }

  lemma MechanismStep(records: seq<Campaign>, asOf: AsOf)
    ensures From(records, asOf, 6) == Then(MechanismObstacle(records), MechanismNotes(records), From(records, asOf, 7))
  {
    MechanismVerdict(records);
    AxisStep(records, asOf, 6, Mechanism, MechanismObstacle(records), MechanismNotes(records));
  }

  lemma SecuredStep(records: seq<Campaign>, asOf: AsOf)
    ensures From(records, asOf, 7) == Then(SecuredObstacle(records), SecuredNotes(records), From(records, asOf, 8))
  {
    SecuredVerdict(records);
    AxisStep(records, asOf, 7, Secured, SecuredObstacle(records), SecuredNotes(records));
  }

  lemma FourThen(
    a: Option<Reason>, b: Option<Reason>, c: Option<Reason>, d: Option<Reason>,
    k: seq<Note>, l: seq<Note>, m: seq<Note>, n: seq<Note>,
    first: Outcome, second: Outcome, third: Outcome, fourth: Outcome, rest: Outcome)
    requires first == Then(a, k, second) && second == Then(b, l, third)
    requires third == Then(c, m, fourth) && fourth == Then(d, n, rest)
    ensures first == Then(First(a, First(b, First(c, d))), k + (l + (m + n)), rest)
  {
    ThenThen(c, m, d, n, rest);
    ThenThen(b, l, First(c, d), m + n, rest);
    ThenThen(a, k, First(b, First(c, d)), l + (m + n), rest);
  }

  lemma RequiredSteps(records: seq<Campaign>, asOf: AsOf, obstacle: Option<Reason>, notes: seq<Note>, rest: Outcome)
    requires From(records, asOf, 4) == Then(obstacle, notes, rest)
    ensures GateOutcome(records, asOf)
         == Then(First(StatusObstacle(records), First(FamilyObstacle(records), First(CurrencyObstacle(records),
                   First(SegmentObstacle(records), obstacle)))), notes, rest)
  {
    StatusVerdict(records, asOf);
    FamilyVerdict(records);
    AxisStep(records, asOf, 1, Family, FamilyObstacle(records), []);
    CurrencyVerdict(records);
    AxisStep(records, asOf, 2, Currency, CurrencyObstacle(records), []);
    SegmentsVerdict(records);
    AxisStep(records, asOf, 3, Segments, SegmentObstacle(records), []);
    FiveThen(StatusObstacle(records), FamilyObstacle(records), CurrencyObstacle(records), SegmentObstacle(records), obstacle, notes, rest);
  }

  lemma FiveThen(
    a: Option<Reason>, b: Option<Reason>, c: Option<Reason>, d: Option<Reason>, e: Option<Reason>, notes: seq<Note>, rest: Outcome)
    ensures Then(a, [], Then(b, [], Then(c, [], Then(d, [], Then(e, notes, rest)))))
         == Then(First(a, First(b, First(c, First(d, e)))), notes, rest)
  {
    assert [] + notes == notes;
    ThenThen(d, [], e, notes, rest);
    ThenThen(c, [], First(d, e), notes, rest);
    ThenThen(b, [], First(c, First(d, e)), notes, rest);
    ThenThen(a, [], First(b, First(c, First(d, e))), notes, rest);
  }

  lemma ContextSteps(records: seq<Campaign>, asOf: AsOf)
    ensures GateOutcome(records, asOf) == Then(ContextObstacle(records), ContextNotes(records), From(records, asOf, 8))
  {
    OptionalSteps(records, asOf);
    RequiredSteps(records, asOf,
      First(ChannelObstacle(records), First(NewCustomerObstacle(records), First(MechanismObstacle(records), SecuredObstacle(records)))),
      ContextNotes(records), From(records, asOf, 8));
  }

  lemma NaiveRaises(records: seq<Campaign>, asOf: AsOf)
    requires asOf.NaiveAt?
    ensures From(records, asOf, 8) == Failure(NaiveAsOf)
  {
  }

  lemma TwoParts(a: Option<Reason>, m: seq<Note>, b: Option<Reason>, n: seq<Note>)
    ensures Then(a, m, Then(b, n, Success((None, []))))
         == if a.Some? then Success((a, [])) else if b.Some? then Success((b, [])) else Success((None, m + n))
  {
    assert n + [] == n;
  }

  // ----- main results

  /** The whole outcome of the gate in the records' fields: the first obstacle in the order status,
      family, currency, segments, channel, new customer, mechanism, security, as-of, observation and
      validity; a timestamp without a zone fails where the as-of is first used; and records that pass
      leave one note for each optional axis on which none of them has evidence. */
  lemma GateInFields(records: seq<Campaign>, asOf: AsOf)
    ensures ContextObstacle(records).Some? ==> GateOutcome(records, asOf) == Success((ContextObstacle(records), []))
    ensures ContextObstacle(records).None? && asOf.NaiveAt? ==> GateOutcome(records, asOf) == Failure(NaiveAsOf)
    ensures ContextObstacle(records).None? && !asOf.NaiveAt? ==>
              GateOutcome(records, asOf)
              == if TimeObstacle(records, asOf).Some? then Success((TimeObstacle(records, asOf), []))
                 else Success((None, ContextNotes(records) + ValidityNotes(records)))
  {
    ContextSteps(records, asOf);
    if asOf.NaiveAt? {
      NaiveRaises(records, asOf);
    } else {
      TimeSteps(records, asOf);
      TwoParts(ContextObstacle(records), ContextNotes(records), TimeObstacle(records, asOf), ValidityNotes(records));
    }
  }

  /** Which records pass the gate: validated ones of one known family, in one stated currency and with
      the same segments; on each optional axis all silent or all agreeing; observed by the as-of; and
      with their windows all unstated, or all stated and open on the selected day. */
  lemma PassesExactly(records: seq<Campaign>, asOf: AsOf)
    requires records != []
    ensures Passes(records, asOf) <==>
              && (forall r :: r in records ==>
                    && r.status == Validated
                    && r.family != UnknownFamily && r.family != OtherFamily && r.family == records[0].family
                    && r.context.currency.Some? && r.context.currency == records[0].context.currency
                    && r.context.segments != [] && multiset(r.context.segments) == multiset(records[0].context.segments)
                    && r.context.channel == records[0].context.channel
                    && r.context.newCustomerOnly == records[0].context.newCustomerOnly
                    && r.context.mechanism == records[0].context.mechanism
                    && (r.family == Financing ==> r.context.secured == records[0].context.secured))
              && (asOf.OnDay? || asOf.At?)
              && (forall r :: r in records ==>
                    match asOf
                    case At(time) => r.observedAt.instant <= time.instant
                    case OnDay(day) => (r.observedAt.instant + r.observedAt.offset) / 86_400_000_000 <= day
                    case _ => false)
              && ((forall r :: r in records ==>
                     || r.validity.None? || r.validity.value.status == Unknown || r.validity.value.status == Ambiguous
                     || (r.validity.value.startsOn.None? && r.validity.value.endsOn.None?))
                  || forall r :: r in records ==>
                       && r.validity.Some? && r.validity.value.status != Unknown && r.validity.value.status != Ambiguous
                       && (r.validity.value.startsOn.Some? || r.validity.value.endsOn.Some?)
                       && var day := if asOf.OnDay? then asOf.day
                                     else if asOf.At? then (asOf.time.instant + asOf.time.offset) / 86_400_000_000
                                     else 0;
                          && (r.validity.value.startsOn.Some? ==> r.validity.value.startsOn.value <= day)
                          && (r.validity.value.endsOn.Some? ==> day <= r.validity.value.endsOn.value))
  {
    PassesWithoutObstacle(records, asOf);
    ContextClearExactly(records);
    TimeClearInFields(records, asOf);
  }

  lemma PassesWithoutObstacle(records: seq<Campaign>, asOf: AsOf)
    ensures Passes(records, asOf) <==>
              ContextObstacle(records).None? && !asOf.NaiveAt? && TimeObstacle(records, asOf).None?
  {
    GateInFields(records, asOf);
  }

  lemma TimeClearInFields(records: seq<Campaign>, asOf: AsOf)
    ensures !asOf.NaiveAt? && TimeObstacle(records, asOf).None? <==>
              && (asOf.OnDay? || asOf.At?)
              && (forall r :: r in records ==>
                    match asOf
                    case At(time) => r.observedAt.instant <= time.instant
                    case OnDay(day) => (r.observedAt.instant + r.observedAt.offset) / 86_400_000_000 <= day
                    case _ => false)
              && ((forall r :: r in records ==>
                     || r.validity.None? || r.validity.value.status == Unknown || r.validity.value.status == Ambiguous
                     || (r.validity.value.startsOn.None? && r.validity.value.endsOn.None?))
                  || forall r :: r in records ==>
                       && r.validity.Some? && r.validity.value.status != Unknown && r.validity.value.status != Ambiguous
                       && (r.validity.value.startsOn.Some? || r.validity.value.endsOn.Some?)
                       && var day := if asOf.OnDay? then asOf.day
                                     else if asOf.At? then (asOf.time.instant + asOf.time.offset) / 86_400_000_000
                                     else 0;
                          && (r.validity.value.startsOn.Some? ==> r.validity.value.startsOn.value <= day)
                          && (r.validity.value.endsOn.Some? ==> day <= r.validity.value.endsOn.value))
  {
    if !asOf.NaiveAt? {
      TimeClearExactly(records, asOf);
    }
  }

  lemma ContextClearExactly(records: seq<Campaign>)
    requires records != []
    ensures ContextObstacle(records).None? <==>
              forall r :: r in records ==>
                && r.status == Validated
                && r.family != UnknownFamily && r.family != OtherFamily && r.family == records[0].family
                && r.context.currency.Some? && r.context.currency == records[0].context.currency
                && r.context.segments != [] && multiset(r.context.segments) == multiset(records[0].context.segments)
                && r.context.channel == records[0].context.channel
                && r.context.newCustomerOnly == records[0].context.newCustomerOnly
                && r.context.mechanism == records[0].context.mechanism
                && (r.family == Financing ==> r.context.secured == records[0].context.secured)
  {
    RequiredClear(records);
    OptionalClear(records);
    SecuredClear(records);
  }

  lemma RequiredClear(records: seq<Campaign>)
    requires records != []
    ensures StatusObstacle(records).None? <==> forall r :: r in records ==> r.status == Validated
    ensures FamilyObstacle(records).None? <==>
              forall r :: r in records ==> r.family != UnknownFamily && r.family != OtherFamily && r.family == records[0].family
    ensures CurrencyObstacle(records).None? <==>
              forall r :: r in records ==> r.context.currency.Some? && r.context.currency == records[0].context.currency
    ensures SegmentObstacle(records).None? <==>
              forall r :: r in records ==>
                r.context.segments != [] && multiset(r.context.segments) == multiset(records[0].context.segments)
  {
    assert records[0] in records;
  }

  lemma OptionalClear(records: seq<Campaign>)
    requires records != []
    ensures ChannelObstacle(records).None? <==>
              forall r :: r in records ==> r.context.channel == records[0].context.channel
    ensures NewCustomerObstacle(records).None? <==>
              forall r :: r in records ==> r.context.newCustomerOnly == records[0].context.newCustomerOnly
    ensures MechanismObstacle(records).None? <==>
              forall r :: r in records ==> r.context.mechanism == records[0].context.mechanism
  {
    assert records[0] in records;
  }

  lemma SecuredClear(records: seq<Campaign>)
    requires records != []
    ensures (forall r :: r in records ==> r.family == records[0].family) ==>
              (SecuredObstacle(records).None? <==>
                 forall r :: r in records ==> r.family == Financing ==> r.context.secured == records[0].context.secured)
  {
    assert records[0] in records;
  }

  lemma TimeClearExactly(records: seq<Campaign>, asOf: AsOf)
    requires !asOf.NaiveAt?
    ensures TimeObstacle(records, asOf).None? <==>
              && !asOf.Missing?
              && (forall r :: r in records ==> SeenBy(r, asOf))
              && ((forall r :: r in records ==> !States(r))
                  || forall r :: r in records ==> States(r) && RunsOn(r, DayOf(asOf)))
  {
  }
}
