/** Dates in a text: which of the matches of four patterns are taken, what year a date without one
    gets, and the validity window that comes of it. The matches themselves, and the yes-or-no
    answers of the word patterns, are inputs. */
module DateSelection {
  import opened Wrappers
  import opened Calendar

  /** One match of a date pattern over the characters from `start` up to `end`. */
  datatype DateParts = DateParts(day: int, month: int, year: Option<int>, start: int, end: int)

  predicate Overlaps(a: DateParts, b: DateParts) {
    a.start < b.end && b.start < a.end
  }

  predicate Nonempty(ms: seq<DateParts>) {
    forall i :: 0 <= i < |ms| ==> ms[i].start < ms[i].end
  }

  predicate Free(m: DateParts, taken: seq<DateParts>) {
    forall i :: 0 <= i < |taken| ==> !Overlaps(m, taken[i])
  }

  /** The matches taken, in the order they are looked at: each that overlaps none taken before. */
  function Taken(ms: seq<DateParts>): seq<DateParts> {
    if ms == [] then []
    else
      var before, last := Taken(ms[..|ms| - 1]), ms[|ms| - 1];
      if Free(last, before) then before + [last] else before
  }

  function Flatten(patterns: seq<seq<DateParts>>): seq<DateParts> {
    if patterns == [] then [] else Flatten(patterns[..|patterns| - 1]) + patterns[|patterns| - 1]
  }

  /** A taken match that names a year but no day of the calendar. */
  predicate Impossible(m: DateParts) {
    m.year.Some? && !Valid(Date(m.year.value, m.month, m.day))
  }

  predicate AnyImpossible(parts: seq<DateParts>) {
    exists m :: m in parts && Impossible(m)
  }

  ghost predicate Disjoint(ms: seq<DateParts>) {
    forall i, j :: 0 <= i < j < |ms| ==> !Overlaps(ms[i], ms[j])
  }

  predicate SpanLe(a: DateParts, b: DateParts) {
    a.start < b.start || (a.start == b.start && a.end <= b.end)
  }

  ghost predicate Ordered(ms: seq<DateParts>) {
    forall i, j :: 0 <= i < j < |ms| ==> SpanLe(ms[i], ms[j])
  }

  // ----- sorting by span

  function InsertSpan(m: DateParts, ms: seq<DateParts>): (r: seq<DateParts>)
    ensures multiset(r) == multiset{m} + multiset(ms)
  {
    if ms == [] then [m]
    else if SpanLe(m, ms[0]) then [m] + ms
    else
      assert ms == [ms[0]] + ms[1..];
      [ms[0]] + InsertSpan(m, ms[1..])
  }

  function SortSpans(ms: seq<DateParts>): (r: seq<DateParts>)
    ensures multiset(r) == multiset(ms)
  {
    if ms == [] then []
    else
      assert ms == [ms[0]] + ms[1..];
      InsertSpan(ms[0], SortSpans(ms[1..]))
  }

  lemma {:induction false} InsertOrdered(m: DateParts, ms: seq<DateParts>)
    requires Ordered(ms)
    ensures Ordered(InsertSpan(m, ms))
  {
    if ms != [] && !SpanLe(m, ms[0]) {
      InsertOrdered(m, ms[1..]);
      var rest := InsertSpan(m, ms[1..]);
      forall j | 0 <= j < |rest|
        ensures SpanLe(ms[0], rest[j])
      {
        assert rest[j] in multiset(rest);
        if rest[j] != m {
          assert rest[j] in multiset(ms[1..]);
        }
      }
    }
  }

  lemma {:induction false} SortOrdered(ms: seq<DateParts>)
    ensures Ordered(SortSpans(ms))
  {
    if ms != [] {
      SortOrdered(ms[1..]);
      InsertOrdered(ms[0], SortSpans(ms[1..]));
    }
  }

  // ----- what is taken

  lemma {:induction false} TakenDisjoint(ms: seq<DateParts>)
    ensures Disjoint(Taken(ms))
    ensures forall m :: m in Taken(ms) ==> m in ms
  {
    if ms != [] {
      TakenDisjoint(ms[..|ms| - 1]);
    }
  }

  /** Every match that is not taken overlaps one that was taken before it. */
  lemma {:induction false} TakenMaximal(ms: seq<DateParts>, i: nat)
    requires i < |ms|
    ensures ms[i] in Taken(ms) || exists t :: t in Taken(ms[..i]) && t in Taken(ms) && Overlaps(ms[i], t)
  {
    var init := ms[..|ms| - 1];
    if i < |init| {
      TakenMaximal(init, i);
      assert init[..i] == ms[..i];
    } else {
      var before := Taken(init);
      if !Free(ms[i], before) {
        var k :| 0 <= k < |before| && Overlaps(ms[i], before[k]);
        assert before[k] in Taken(init);
      }
    }
  }

  /** A sequence of matches that overlap nothing in front of them, nor each other, is taken whole. */
  lemma {:induction false} DisjointAllTaken(front: seq<DateParts>)
    requires Disjoint(front)
    ensures Taken(front) == front
  {
    if front != [] {
      var init := front[..|front| - 1];
      DisjointAllTaken(init);
      forall i | 0 <= i < |init|
        ensures !Overlaps(front[|front| - 1], init[i])
      {
        assert !Overlaps(front[i], front[|front| - 1]);
      }
      assert front == init + [front[|front| - 1]];
    }
  }

  lemma {:induction false} TakenExtends(front: seq<DateParts>, more: seq<DateParts>)
    ensures Taken(front) <= Taken(front + more)
  {
    if more == [] {
      assert front + more == front;
    } else {
      var init := more[..|more| - 1];
      TakenExtends(front, init);
      assert (front + more)[..|front + more| - 1] == front + init;
    }
  }

  /** The first pattern has priority: each of its matches, which never overlap one another, is kept. */
  lemma {:induction false} FirstPatternKept(patterns: seq<seq<DateParts>>)
    requires patterns != [] && Disjoint(patterns[0])
    ensures patterns[0] <= Taken(Flatten(patterns))
  {
    if |patterns| == 1 {
      assert Flatten(patterns[..0]) == [];
      assert Flatten(patterns) == [] + patterns[0] == patterns[0];
      DisjointAllTaken(patterns[0]);
    } else {
      var init := patterns[..|patterns| - 1];
      FirstPatternKept(init);
      TakenExtends(Flatten(init), patterns[|patterns| - 1]);
    }
  }

  lemma ImpossibleAppend(taken: seq<DateParts>, m: DateParts)
    ensures AnyImpossible(taken + [m]) <==> AnyImpossible(taken) || Impossible(m)
  {
    assert forall x :: x in taken + [m] <==> x in taken || x == m;
  }

  /** The matches of one pattern, looked at in order. */
  method TakePattern(pattern: seq<DateParts>, before: seq<DateParts>, wasInvalid: bool, ghost done: seq<DateParts>)
    returns (candidates: seq<DateParts>, invalid: bool)
    requires before == Taken(done) && wasInvalid == AnyImpossible(before)
    ensures candidates == Taken(done + pattern) && invalid == AnyImpossible(candidates)
  {
    candidates, invalid := before, wasInvalid;
    assert done + pattern[..0] == done;
    for j := 0 to |pattern|
      invariant candidates == Taken(done + pattern[..j])
      invariant invalid == AnyImpossible(candidates)
    {
      var m := pattern[j];
      assert (done + pattern[..j + 1])[..|done| + j] == done + pattern[..j];
      if Free(m, candidates) {
        ImpossibleAppend(candidates, m);
        if m.year.Some? && !Valid(Date(m.year.value, m.month, m.day)) {
          invalid := true;
        }
        candidates := candidates + [m];
      }
    }
    assert pattern[..|pattern|] == pattern;
  }

  /** The extraction: look at the patterns in turn, keep what overlaps nothing kept, then sort. */
  method ExtractDateParts(patterns: seq<seq<DateParts>>) returns (parts: seq<DateParts>, invalid: bool)
    requires forall k :: 0 <= k < |patterns| ==> Nonempty(patterns[k])
    ensures parts == SortSpans(Taken(Flatten(patterns)))
    ensures forall i, j :: 0 <= i < j < |parts| ==> parts[i].end <= parts[j].start
    ensures invalid <==> AnyImpossible(parts)
    ensures forall m :: m in parts ==> m in Flatten(patterns)
    ensures forall m :: m in Flatten(patterns) ==> m in parts || exists t :: t in parts && Overlaps(m, t)
  {
    var candidates: seq<DateParts> := [];
    invalid := false;
    for k := 0 to |patterns|
      invariant candidates == Taken(Flatten(patterns[..k]))
      invariant invalid == AnyImpossible(candidates)
    {
      assert patterns[..k + 1][..k] == patterns[..k];
      candidates, invalid := TakePattern(patterns[k], candidates, invalid, Flatten(patterns[..k]));
    }
    assert patterns[..|patterns|] == patterns;
    parts := SortSpans(candidates);
    FlattenNonempty(patterns);
    SortedApart(Flatten(patterns), parts);
    AllAccounted(Flatten(patterns), parts);
    TakenDisjoint(Flatten(patterns));
  }

  lemma {:induction false} FlattenNonempty(patterns: seq<seq<DateParts>>)
    requires forall k :: 0 <= k < |patterns| ==> Nonempty(patterns[k])
    ensures Nonempty(Flatten(patterns))
  {
    if patterns != [] {
      FlattenNonempty(patterns[..|patterns| - 1]);
    }
  }

  lemma SameMembers(a: seq<DateParts>, b: seq<DateParts>)
    requires multiset(a) == multiset(b)
    ensures forall m :: m in a <==> m in b
  {
    forall m
      ensures m in a <==> m in b
    {
      assert m in a <==> m in multiset(a);
      assert m in b <==> m in multiset(b);
    }
  }

  lemma AllAccounted(ms: seq<DateParts>, parts: seq<DateParts>)
    requires multiset(parts) == multiset(Taken(ms))
    ensures forall m :: m in parts <==> m in Taken(ms)
    ensures forall m :: m in ms ==> m in parts || exists t :: t in parts && Overlaps(m, t)
  {
    SameMembers(parts, Taken(ms));
    forall m | m in ms
      ensures m in parts || exists t :: t in parts && Overlaps(m, t)
    {
      var i :| 0 <= i < |ms| && ms[i] == m;
      TakenMaximal(ms, i);
    }
  }

  /** No match is taken twice. */
  lemma {:induction false} TakenOnce(ms: seq<DateParts>, m: DateParts)
    requires Nonempty(ms)
    ensures multiset(Taken(ms))[m] <= 1
  {
    if ms != [] {
      var init, last := ms[..|ms| - 1], ms[|ms| - 1];
      TakenOnce(init, m);
      TakenDisjoint(init);
      var before := Taken(init);
      if Free(last, before) {
        FreeIsNew(last, before);
      }
    }
  }

  lemma FreeIsNew(m: DateParts, taken: seq<DateParts>)
    requires m.start < m.end && Free(m, taken)
    ensures m !in taken
  {
    assert Overlaps(m, m);
  }

  lemma TwiceMeansTwo(ms: seq<DateParts>, i: nat, j: nat)
    requires i < j < |ms| && ms[i] == ms[j]
    ensures multiset(ms)[ms[i]] >= 2
  {
    assert ms == ms[..i] + [ms[i]] + ms[i + 1..j] + [ms[j]] + ms[j + 1..];
  }

  /** Two of the sorted spans at different places are different spans taken, and do not overlap. */
  lemma PairApart(ms: seq<DateParts>, parts: seq<DateParts>, i: nat, j: nat)
    requires Nonempty(ms)
    requires multiset(parts) == multiset(Taken(ms)) && i < j < |parts|
    ensures parts[i] in Taken(ms) && parts[j] in Taken(ms)
    ensures parts[i] != parts[j]
  {
    SameMembers(parts, Taken(ms));
    TakenOnce(ms, parts[i]);
    if parts[i] == parts[j] {
      TwiceMeansTwo(parts, i, j);
    }
  }

  lemma TakenApart(ms: seq<DateParts>, p: DateParts, q: DateParts)
    requires p in Taken(ms) && q in Taken(ms) && p != q
    ensures !Overlaps(p, q) && p in ms && q in ms
  {
    TakenDisjoint(ms);
    var taken := Taken(ms);
    var a :| 0 <= a < |taken| && taken[a] == p;
    var b :| 0 <= b < |taken| && taken[b] == q;
  }

  lemma SortedApart(ms: seq<DateParts>, parts: seq<DateParts>)
    requires Nonempty(ms)
    requires parts == SortSpans(Taken(ms))
    ensures forall i, j :: 0 <= i < j < |parts| ==> parts[i].end <= parts[j].start
  {
    forall i, j | 0 <= i < j < |parts|
      ensures parts[i].end <= parts[j].start
    {
      SortOrdered(Taken(ms));
      PairApart(ms, parts, i, j);
      TakenApart(ms, parts[i], parts[j]);
      ApartInOrder(ms, parts[i], parts[j]);
    }
  }

  lemma ApartInOrder(ms: seq<DateParts>, p: DateParts, q: DateParts)
    requires Nonempty(ms) && p in ms && q in ms && !Overlaps(p, q) && SpanLe(p, q)
    ensures p.end <= q.start
  {
  }

  // ----- the missing year

  function OnYear(p: DateParts, year: int): Date {
    Date(year, p.month, p.day)
  }

  predicate MonthDayLe(a: DateParts, b: DateParts) {
    a.month < b.month || (a.month == b.month && a.day <= b.day)
  }

  /** The years the two dates of a pair get: the reference year when neither states one, and
      otherwise the stated one, moved by one where the pair would run backwards. */
  function PairYears(first: DateParts, second: DateParts, reference: Option<Date>): Option<(int, int)> {
    if first.year.None? && second.year.None? then
      if reference.None? then None else Some((reference.value.year, reference.value.year))
    else if first.year.None? then
      Some((if MonthDayLe(first, second) then second.year.value else second.year.value - 1, second.year.value))
    else if second.year.None? then
      Some((first.year.value, if MonthDayLe(first, second) then first.year.value else first.year.value + 1))
    else Some((first.year.value, second.year.value))
  }

  function ResolveDatePair(first: DateParts, second: DateParts, reference: Option<Date>): Option<(Date, Date)> {
    var years := PairYears(first, second, reference);
    if years.None? then None
    else
      var a, b := OnYear(first, years.value.0), OnYear(second, years.value.1);
      if Valid(a) && Valid(b) then Some((a, b)) else None
  }

  /** When exactly one of the two years is stated, a resolved pair never runs backwards, and no
      other choice of the missing year gives an ordered window that is as short. */
  lemma InferredYearIsShortest(first: DateParts, second: DateParts, reference: Option<Date>, year: int)
    requires first.year.None? != second.year.None?
    requires ResolveDatePair(first, second, reference).Some?
    ensures var (a, b) := ResolveDatePair(first, second, reference).value;
            && Le(a, b)
            && (first.year.None? && Valid(OnYear(first, year)) && Le(OnYear(first, year), b) && year != a.year ==>
                  Ordinal(b) - Ordinal(a) < Ordinal(b) - Ordinal(OnYear(first, year)))
            && (second.year.None? && Valid(OnYear(second, year)) && Le(a, OnYear(second, year)) && year != b.year ==>
                  Ordinal(b) - Ordinal(a) < Ordinal(OnYear(second, year)) - Ordinal(a))
  {
    var (a, b) := ResolveDatePair(first, second, reference).value;
    if first.year.None? && Valid(OnYear(first, year)) {
      OrdinalOrders(a, OnYear(first, year));
    }
    if second.year.None? && Valid(OnYear(second, year)) {
      OrdinalOrders(OnYear(second, year), b);
    }
  }

  /** When no year is stated the pair can run backwards: a window over the turn of the year, read in
      one reference year. */
  lemma ReferenceYearCanReverse(reference: Date, first: DateParts, second: DateParts)
    requires first.year.None? && second.year.None?
    requires Valid(OnYear(first, reference.year)) && Valid(OnYear(second, reference.year))
    ensures ResolveDatePair(first, second, Some(reference)).Some?
    ensures var (a, b) := ResolveDatePair(first, second, Some(reference)).value;
            Le(a, b) <==> MonthDayLe(first, second)
  {
  }

  // ----- the validity window

  datatype Window = Window(startsOn: Option<Date>, endsOn: Option<Date>)

  datatype Refusal =
    | TimeOfDay | RelativeNeedsReference | InvalidWindow | ReversedWindow | MultipleRoles
    | MultipleDates | YearMissing | PrecisionAmbiguous | DateNotFound | BoundaryUnknown
    | CalendarError

  /** What the word patterns find in one text. */
  datatype Found = Found(
    timeOfDay: bool,
    untilMonthEnd: bool,
    sameMonth: Option<(int, int, int, int)>,
    fullMonth: Option<(int, int)>,
    patterns: seq<seq<DateParts>>,
    bothRoles: bool, rangeWord: bool, monthAndYear: bool, untilWord: bool, fromWord: bool)

  /** A whole month of a year that no calendar has makes the date constructor itself fail. */
  function FullMonth(month: int, year: int): Result<Window, Refusal> {
    var first, last := Date(year, month, 1), Date(year, month, DaysInMonth(year, month));
    if Valid(first) && Valid(last) then Success(Window(Some(first), Some(last))) else Failure(CalendarError)
  }

  function SameMonth(first: int, second: int, month: int, year: int): Result<Window, Refusal> {
    var a, b := Date(year, month, first), Date(year, month, second);
    if !Valid(a) || !Valid(b) then Failure(InvalidWindow)
    else if !Le(a, b) then Failure(ReversedWindow)
    else Success(Window(Some(a), Some(b)))
  }

  function TwoDates(f: Found, parts: seq<DateParts>, reference: Option<Date>): Result<Window, Refusal>
    requires |parts| == 2
  {
    if f.bothRoles then Failure(MultipleRoles)
    else if !f.rangeWord then Failure(MultipleDates)
    else
      var pair := ResolveDatePair(parts[0], parts[1], reference);
      if pair.None? then Failure(YearMissing)
      else if !Le(pair.value.0, pair.value.1) then Failure(ReversedWindow)
      else Success(Window(Some(pair.value.0), Some(pair.value.1)))
  }

  function OneDate(f: Found, part: DateParts, reference: Option<Date>): Result<Window, Refusal> {
    if part.year.None? && reference.None? then Failure(YearMissing)
    else
      var boundary := OnYear(part, if part.year.Some? then part.year.value else reference.value.year);
      if !Valid(boundary) then Failure(InvalidWindow)
      else if f.untilWord then Success(Window(None, Some(boundary)))
      else if f.fromWord then Success(Window(Some(boundary), None))
      else Failure(BoundaryUnknown)
  }

  function FromParts(f: Found, parts: seq<DateParts>, reference: Option<Date>): Result<Window, Refusal> {
    if AnyImpossible(parts) then Failure(InvalidWindow)
    else if |parts| == 2 then TwoDates(f, parts, reference)
    else if parts == [] && f.monthAndYear then Failure(PrecisionAmbiguous)
    else if |parts| != 1 then Failure(DateNotFound)
    else OneDate(f, parts[0], reference)
  }

  function NormalizeValidity(f: Found, reference: Option<Date>): Result<Window, Refusal> {
    if f.timeOfDay then Failure(TimeOfDay)
    else if f.untilMonthEnd then
      if reference.None? then Failure(RelativeNeedsReference)
      else
        var r := reference.value;
        Success(Window(None, Some(Date(r.year, r.month, DaysInMonth(r.year, r.month)))))
    else if f.sameMonth.Some? then
      SameMonth(f.sameMonth.value.0, f.sameMonth.value.1, f.sameMonth.value.2, f.sameMonth.value.3)
    else if f.fullMonth.Some? then FullMonth(f.fullMonth.value.0, f.fullMonth.value.1)
    else FromParts(f, SortSpans(Taken(Flatten(f.patterns))), reference)
  }

  /** At least one bound, made of calendar dates, never ending before it starts. */
  predicate Sound(w: Window) {
    && (w.startsOn.Some? || w.endsOn.Some?)
    && (w.startsOn.Some? ==> Valid(w.startsOn.value))
    && (w.endsOn.Some? ==> Valid(w.endsOn.value))
    && (w.startsOn.Some? && w.endsOn.Some? ==>
          Le(w.startsOn.value, w.endsOn.value) && Ordinal(w.startsOn.value) <= Ordinal(w.endsOn.value))
  }

  lemma ClosedIsSound(a: Date, b: Date)
    requires Valid(a) && Valid(b) && Le(a, b)
    ensures Sound(Window(Some(a), Some(b)))
  {
    OrdinalOrders(a, b);
  }

  lemma PartsWindowIsSound(f: Found, parts: seq<DateParts>, reference: Option<Date>, w: Window)
    requires FromParts(f, parts, reference) == Success(w)
    ensures Sound(w)
  {
    if |parts| == 2 {
      var (a, b) := ResolveDatePair(parts[0], parts[1], reference).value;
      ClosedIsSound(a, b);
    }
  }

  /** A normalized window has at least one bound, is made of calendar dates, and never ends before
      it starts. */
  lemma NormalizedWindowIsSound(f: Found, reference: Option<Date>, w: Window)
    requires reference.Some? ==> Valid(reference.value)
    requires NormalizeValidity(f, reference) == Success(w)
    ensures Sound(w)
  {
    if f.untilMonthEnd {
    } else if f.sameMonth.Some? {
      ClosedIsSound(w.startsOn.value, w.endsOn.value);
    } else if f.fullMonth.Some? {
      ClosedIsSound(w.startsOn.value, w.endsOn.value);
    } else {
      PartsWindowIsSound(f, SortSpans(Taken(Flatten(f.patterns))), reference, w);
    }
  }

  /** Only a whole month ends in the date constructor's own error, and exactly when no calendar has its
      year. A month found in a text is one of the twelve. */
  lemma CalendarErrorExactly(f: Found, reference: Option<Date>)
    requires f.fullMonth.Some? ==> 1 <= f.fullMonth.value.0 <= 12
    ensures NormalizeValidity(f, reference) == Failure(CalendarError) <==>
              && !f.timeOfDay && !f.untilMonthEnd && f.sameMonth.None?
              && f.fullMonth.Some? && !(1 <= f.fullMonth.value.1 <= 9999)
  {
    PartsKeepErrors(f, SortSpans(Taken(Flatten(f.patterns))), reference);
    if f.fullMonth.Some? {
      MonthNeedsItsYear(f.fullMonth.value.0, f.fullMonth.value.1);
    }
  }

  lemma MonthNeedsItsYear(month: int, year: int)
    requires 1 <= month <= 12
    ensures FullMonth(month, year) == Failure(CalendarError) <==> !(1 <= year <= 9999)
  {
  }

  lemma PartsKeepErrors(f: Found, parts: seq<DateParts>, reference: Option<Date>)
    ensures FromParts(f, parts, reference) != Failure(CalendarError)
  {
  }

  /** The whole of any month of the year 0, which four digits can write. */
  lemma YearZeroFails(month: int, f: Found, reference: Option<Date>)
    requires 1 <= month <= 12
    requires !f.timeOfDay && !f.untilMonthEnd && f.sameMonth.None? && f.fullMonth == Some((month, 0))
    ensures NormalizeValidity(f, reference) == Failure(CalendarError)
  {
    CalendarErrorExactly(f, reference);
  }

  /** A whole-month window holds exactly the days of its month. */
  lemma FullMonthHoldsItsDays(month: int, year: int, d: Date)
    requires FullMonth(month, year).Success? && Valid(d)
    ensures var w := FullMonth(month, year).value;
            Ordinal(w.startsOn.value) <= Ordinal(d) <= Ordinal(w.endsOn.value)
            <==> d.year == year && d.month == month
  {
    var w := FullMonth(month, year).value;
    OrdinalOrders(w.startsOn.value, d);
    OrdinalOrders(d, w.endsOn.value);
  }

  // ----- what each wording means

  /** The day lies within the window, both ends included. */
  predicate Holds(w: Window, d: Date) {
    && (w.startsOn.Some? ==> Ordinal(w.startsOn.value) <= Ordinal(d))
    && (w.endsOn.Some? ==> Ordinal(d) <= Ordinal(w.endsOn.value))
  }

  /** A single date, in its own year or the reference one: with an until-word the window holds exactly
      the days up to it, with a from-word alone exactly the days from it on. It is refused when the
      year is known from neither, when no calendar has it, or when there is neither word. */
  lemma SingleDateExactly(f: Found, part: DateParts, reference: Option<Date>)
    requires !f.timeOfDay && !f.untilMonthEnd && f.sameMonth.None? && f.fullMonth.None?
    requires SortSpans(Taken(Flatten(f.patterns))) == [part]
    ensures part.year.None? && reference.None? ==> NormalizeValidity(f, reference) == Failure(YearMissing)
    ensures part.year.Some? || reference.Some? ==>
              var date := Date(if part.year.Some? then part.year.value else reference.value.year, part.month, part.day);
              && (!Valid(date) ==> NormalizeValidity(f, reference) == Failure(InvalidWindow))
              && (Valid(date) && !f.untilWord && !f.fromWord ==> NormalizeValidity(f, reference) == Failure(BoundaryUnknown))
              && (Valid(date) && (f.untilWord || f.fromWord) ==> NormalizeValidity(f, reference).Success?)
              && (Valid(date) && f.untilWord ==> NormalizeValidity(f, reference) == Success(Window(None, Some(date))))
              && (Valid(date) && !f.untilWord && f.fromWord ==> NormalizeValidity(f, reference) == Success(Window(Some(date), None)))
  {
    assert [part][0] == part && (forall m :: m in [part] ==> m == part);
    assert part in [part];
  }

  /** Which days a window holds that comes from no list of dates: those until the end of the reference
      month; two days of one month and those between; or the days of a whole month. */
  lemma MonthWordingsExactly(f: Found, reference: Option<Date>, w: Window, d: Date)
    requires reference.Some? ==> Valid(reference.value)
    requires Valid(d) && NormalizeValidity(f, reference) == Success(w)
    ensures !f.timeOfDay
    ensures f.untilMonthEnd ==>
              && reference.Some?
              && (Holds(w, d) <==> d.year < reference.value.year || (d.year == reference.value.year && d.month <= reference.value.month))
    ensures !f.untilMonthEnd && f.sameMonth.Some? ==>
              var (first, second, month, year) := f.sameMonth.value;
              Holds(w, d) <==> d.year == year && d.month == month && first <= d.day <= second
    ensures !f.untilMonthEnd && f.sameMonth.None? && f.fullMonth.Some? ==>
              (Holds(w, d) <==> d.year == f.fullMonth.value.1 && d.month == f.fullMonth.value.0)
  {
    if f.untilMonthEnd {
      UntilMonthEnd(reference.value, d);
    } else if f.sameMonth.Some? {
      var (first, second, month, year) := f.sameMonth.value;
      OrdinalOrders(Date(year, month, first), d);
      OrdinalOrders(d, Date(year, month, second));
    } else if f.fullMonth.Some? {
      FullMonthHoldsItsDays(f.fullMonth.value.0, f.fullMonth.value.1, d);
    }
  }

  lemma UntilMonthEnd(reference: Date, d: Date)
    requires Valid(reference) && Valid(d)
    ensures var last := Date(reference.year, reference.month, DaysInMonth(reference.year, reference.month));
            Ordinal(d) <= Ordinal(last) <==>
            d.year < reference.year || (d.year == reference.year && d.month <= reference.month)
  {
    OrdinalOrders(d, Date(reference.year, reference.month, DaysInMonth(reference.year, reference.month)));
  }

  /** Two dates joined by a range word: the window holds exactly the days from the first to the second,
      each in its own year where it states one, and both in the reference year where neither does. */
  lemma RangeHoldsExactly(f: Found, first: DateParts, second: DateParts, reference: Option<Date>, w: Window, d: Date)
    requires !f.timeOfDay && !f.untilMonthEnd && f.sameMonth.None? && f.fullMonth.None?
    requires SortSpans(Taken(Flatten(f.patterns))) == [first, second]
    requires Valid(d) && NormalizeValidity(f, reference) == Success(w)
    ensures f.rangeWord && !f.bothRoles
    ensures w.startsOn.Some? && w.endsOn.Some?
    ensures var a, b := w.startsOn.value, w.endsOn.value;
            && a.month == first.month && a.day == first.day && b.month == second.month && b.day == second.day
            && (first.year.Some? ==> a.year == first.year.value)
            && (second.year.Some? ==> b.year == second.year.value)
            && (first.year.None? && second.year.None? ==>
                  reference.Some? && a.year == b.year == reference.value.year)
            && (Holds(w, d) <==> Le(a, d) && Le(d, b))
  {
    RangeWindow(f, [first, second], reference, w);
    OrdinalOrders(w.startsOn.value, d);
    OrdinalOrders(d, w.endsOn.value);
  }

  lemma RangeWindow(f: Found, parts: seq<DateParts>, reference: Option<Date>, w: Window)
    requires |parts| == 2 && FromParts(f, parts, reference) == Success(w)
    ensures f.rangeWord && !f.bothRoles
    ensures ResolveDatePair(parts[0], parts[1], reference).Some?
    ensures var (a, b) := ResolveDatePair(parts[0], parts[1], reference).value;
            w == Window(Some(a), Some(b)) && Valid(a) && Valid(b)
  {
  }

  /** When two dates can be read: some year is known, and both are on the calendar in the years they get,
      a missing one being the year of the other or, where that would run backwards, the one beside it. */
  lemma ResolvedExactly(first: DateParts, second: DateParts, reference: Option<Date>)
    ensures ResolveDatePair(first, second, reference).Some? <==>
              exists y, z {:trigger OnYear(first, y), OnYear(second, z)} ::
                && Valid(OnYear(first, y)) && Valid(OnYear(second, z))
                && (first.year.Some? ==> y == first.year.value) && (second.year.Some? ==> z == second.year.value)
                && (first.year.None? && second.year.None? ==> reference.Some? && y == z == reference.value.year)
                && (first.year.None? && second.year.Some? ==>
                      y == if Le(OnYear(first, z), OnYear(second, z)) then z else z - 1)
                && (first.year.Some? && second.year.None? ==>
                      z == if Le(OnYear(first, y), OnYear(second, y)) then y else y + 1)
  {
    var years := PairYears(first, second, reference);
    if years.Some? {
      var y, z := years.value.0, years.value.1;
      assert OnYear(first, y).year == y && OnYear(second, z).year == z;
    }
  }

  /** Which refusal a wording gets that comes before any list of dates. */
  lemma WordingsRefusedExactly(f: Found, reference: Option<Date>)
    ensures NormalizeValidity(f, reference) == Failure(TimeOfDay) <==> f.timeOfDay
    ensures NormalizeValidity(f, reference) == Failure(RelativeNeedsReference) <==>
              !f.timeOfDay && f.untilMonthEnd && reference.None?
    ensures !f.timeOfDay && !f.untilMonthEnd && f.sameMonth.Some? ==>
              var (first, second, month, year) := f.sameMonth.value;
              var calendar := Valid(Date(year, month, first)) && Valid(Date(year, month, second));
              && (NormalizeValidity(f, reference) == Failure(InvalidWindow) <==> !calendar)
              && (NormalizeValidity(f, reference) == Failure(ReversedWindow) <==> calendar && first > second)
              && (NormalizeValidity(f, reference).Success? <==> calendar && first <= second)
  {
    if !f.timeOfDay && !f.untilMonthEnd && f.sameMonth.None? && f.fullMonth.None? {
      PartsRefusedExactly(f, SortSpans(Taken(Flatten(f.patterns))), reference);
    }
  }

  lemma PartsRefusedExactly(f: Found, parts: seq<DateParts>, reference: Option<Date>)
    ensures AnyImpossible(parts) ==> FromParts(f, parts, reference) == Failure(InvalidWindow)
    ensures !AnyImpossible(parts) && |parts| == 2 ==>
              && (FromParts(f, parts, reference) == Failure(MultipleRoles) <==> f.bothRoles)
              && (FromParts(f, parts, reference) == Failure(MultipleDates) <==> !f.bothRoles && !f.rangeWord)
              && (FromParts(f, parts, reference) == Failure(YearMissing) <==>
                    !f.bothRoles && f.rangeWord && ResolveDatePair(parts[0], parts[1], reference).None?)
              && (FromParts(f, parts, reference) == Failure(ReversedWindow) || FromParts(f, parts, reference).Success? <==>
                    !f.bothRoles && f.rangeWord && ResolveDatePair(parts[0], parts[1], reference).Some?)
    ensures parts == [] ==>
              FromParts(f, parts, reference) == Failure(if f.monthAndYear then PrecisionAmbiguous else DateNotFound)
    ensures !AnyImpossible(parts) && |parts| > 2 ==> FromParts(f, parts, reference) == Failure(DateNotFound)
    ensures FromParts(f, parts, reference) != Failure(TimeOfDay)
    ensures FromParts(f, parts, reference) != Failure(RelativeNeedsReference)
  {
  }

  /** Which refusal a list of dates gets: one that no calendar has; then, of two, two roles, no range word,
      no year or date to be had, and an end before the start; none, or a month and year alone; and more
      than two. */
  lemma DatesRefusedExactly(f: Found, reference: Option<Date>, parts: seq<DateParts>, r: Result<Window, Refusal>)
    requires !f.timeOfDay && !f.untilMonthEnd && f.sameMonth.None? && f.fullMonth.None?
    requires r == NormalizeValidity(f, reference) && parts == SortSpans(Taken(Flatten(f.patterns)))
    ensures (exists p :: p in parts && p.year.Some? && !Valid(Date(p.year.value, p.month, p.day))) ==> r == Failure(InvalidWindow)
    ensures !AnyImpossible(parts) && |parts| == 2 ==>
              && (r == Failure(MultipleRoles) <==> f.bothRoles)
              && (r == Failure(MultipleDates) <==> !f.bothRoles && !f.rangeWord)
              && (r == Failure(YearMissing) <==>
                    !f.bothRoles && f.rangeWord && ResolveDatePair(parts[0], parts[1], reference).None?)
              && (r == Failure(ReversedWindow) || r.Success? <==>
                    !f.bothRoles && f.rangeWord && ResolveDatePair(parts[0], parts[1], reference).Some?)
    ensures parts == [] ==> r == Failure(if f.monthAndYear then PrecisionAmbiguous else DateNotFound)
    ensures !AnyImpossible(parts) && |parts| > 2 ==> r == Failure(DateNotFound)
  {
    PartsRefusedExactly(f, parts, reference);
    if p :| p in parts && p.year.Some? && !Valid(Date(p.year.value, p.month, p.day)) {
      assert Impossible(p);
    }
  }
}
