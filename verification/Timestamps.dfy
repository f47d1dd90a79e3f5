/** Aware timestamps, their text in UTC, and a reader of such texts. An instant is a number of
    microseconds since the start of the year 1, UTC. */
module Timestamps {
  import opened Wrappers
  import opened Digits
  import opened Calendar
  import opened Clock

  const HOUR := 60 * MINUTE
  const DAY := 24 * HOUR
  const INSTANTS := MAX_ORDINAL * DAY

  /** An instant seen from a zone whose clock is ahead of UTC by `offset` microseconds. */
  datatype Aware = Aware(instant: int, offset: int)

  /** The zone's own clock reading must lie within the calendar. */
  predicate Representable(t: Aware) {
    0 <= t.instant + t.offset < INSTANTS && -DAY < t.offset < DAY
  }

  // ----- fields of fixed width

  datatype Field = Field(width: nat, after: string)

  function WriteFields(values: seq<nat>, layout: seq<Field>): string
    requires |values| == |layout|
  {
    if values == [] then ""
    else Padded(values[0], layout[0].width) + (layout[0].after + WriteFields(values[1..], layout[1..]))
  }

  function ReadField(s: string, f: Field): Option<(nat, string)> {
    if |s| < f.width || !AllDigits(s[..f.width]) || !(f.after <= s[f.width..]) then None
    else Some((DigitsValue(s[..f.width]), s[f.width..][|f.after|..]))
  }

  function ReadFields(s: string, layout: seq<Field>): Option<(seq<nat>, string)>
    decreases |layout|
  {
    if layout == [] then Some(([], s))
    else
      var head := ReadField(s, layout[0]);
      if head.None? then None
      else
        var tail := ReadFields(head.value.1, layout[1..]);
        if tail.None? then None else Some(([head.value.0] + tail.value.0, tail.value.1))
  }

  lemma ReadOneField(n: nat, f: Field, rest: string)
    requires n < Pow10(f.width)
    ensures ReadField(Padded(n, f.width) + (f.after + rest), f) == Some((n, rest))
  {
    var digits := Padded(n, f.width);
    var s := digits + (f.after + rest);
    PaddedReads(n, f.width);
    assert s[..f.width] == digits;
    assert s[f.width..] == f.after + rest;
    assert (f.after + rest)[|f.after|..] == rest;
  }

  lemma Regroup(a: string, b: string, c: string, d: string)
    ensures a + (b + c) + d == a + (b + (c + d))
  {
  }

  lemma {:induction false} ReadWrittenFields(values: seq<nat>, layout: seq<Field>, rest: string)
    requires |values| == |layout|
    requires forall i :: 0 <= i < |values| ==> values[i] < Pow10(layout[i].width)
    ensures ReadFields(WriteFields(values, layout) + rest, layout) == Some((values, rest))
    decreases |values|
  {
    if values == [] {
      assert "" + rest == rest;
    } else {
      var more := WriteFields(values[1..], layout[1..]);
      ReadOneField(values[0], layout[0], more + rest);
      Regroup(Padded(values[0], layout[0].width), layout[0].after, more, rest);
      ReadWrittenFields(values[1..], layout[1..], rest);
      assert values == [values[0]] + values[1..];
    }
  }

  // ----- texts

  const CLOCK: seq<Field> :=
    [Field(4, "-"), Field(2, "-"), Field(2, "T"), Field(2, ":"), Field(2, ":"), Field(2, "")]

  const FRACTION: seq<Field> := [Field(6, "")]

  const OFFSET: seq<Field> := [Field(2, ":"), Field(2, "")]

  function DateOf(instant: int): (d: Date)
    requires 0 <= instant < INSTANTS
    ensures Valid(d) && Ordinal(d) == instant / DAY + 1
  {
    FromOrdinal(instant / DAY + 1)
  }

  function ClockValues(instant: int): (values: seq<nat>)
    requires 0 <= instant < INSTANTS
    ensures |values| == 6
  {
    var d, t := DateOf(instant), instant % DAY;
    TimeOfDay(t);
    [d.year, d.month, d.day, t / HOUR, t % HOUR / MINUTE, t % MINUTE / 1_000_000]
  }

  /** A clock reading with a zone designator: microseconds only when there are any. */
  function ZonedText(local: int, zone: string): string
    requires 0 <= local < INSTANTS
  {
    ClockText(ClockValues(local), local % 1_000_000, zone)
  }

  function ClockText(values: seq<nat>, micros: nat, zone: string): string
    requires |values| == 6
  {
    WriteFields(values, CLOCK) + (if micros == 0 then zone else "." + (WriteFields([micros], FRACTION) + zone))
  }

  /** The text of an instant in UTC. */
  function IsoUtc(instant: int): string
    requires 0 <= instant < INSTANTS
  {
    ZonedText(instant, "Z")
  }

  /** A zone by its sign, hours and minutes. */
  function ZoneText(sign: char, hours: nat, minutes: nat): string {
    [sign] + WriteFields([hours, minutes], OFFSET)
  }

  function ZoneOffset(sign: char, hours: nat, minutes: nat): int {
    var size := hours * HOUR + minutes * MINUTE;
    if sign == '-' then -size else size
  }

  /** A zone designator: the letter Z, or a sign with hours and minutes. */
  function ReadZone(s: string): Option<int> {
    if s == "Z" then Some(0)
    else if s == "" || (s[0] != '+' && s[0] != '-') then None
    else
      match ReadFields(s[1..], OFFSET)
      case None => None
      case Some((v, rest)) =>
        if rest != "" || |v| != 2 || v[0] >= 24 || v[1] >= 60 then None
        else
          var size := v[0] * HOUR + v[1] * MINUTE;
          Some(if s[0] == '-' then -size else size)
  }

  function AtClock(v: seq<nat>, micros: nat, offset: int): Option<Aware>
    requires |v| == 6
  {
    var d := Date(v[0], v[1], v[2]);
    if !Valid(d) || v[3] >= 24 || v[4] >= 60 || v[5] >= 60 then None
    else Some(Aware((Ordinal(d) - 1) * DAY + v[3] * HOUR + v[4] * MINUTE + v[5] * 1_000_000 + micros - offset, offset))
  }

  /** What follows the clock: an optional fraction of six digits, and the zone. */
  function Finish(v: seq<nat>, rest: string): Option<Aware> {
    if |v| != 6 then None
    else if rest != "" && rest[0] == '.' then
      (match ReadFields(rest[1..], FRACTION)
       case None => None
       case Some((f, zone)) =>
         if |f| != 1 || ReadZone(zone).None? then None else AtClock(v, f[0], ReadZone(zone).value))
    else if ReadZone(rest).None? then None
    else AtClock(v, 0, ReadZone(rest).value)
  }

  /** A timestamp with a zone designator. */
  function ReadIso(s: string): Option<Aware> {
    match ReadFields(s, CLOCK)
    case None => None
    case Some((v, rest)) => Finish(v, rest)
  }

  lemma TimeOfDay(t: int)
    requires 0 <= t < DAY
    ensures 0 <= t / HOUR < 24 && 0 <= t % HOUR / MINUTE < 60 && 0 <= t % MINUTE / 1_000_000 < 60
    ensures t == t / HOUR * HOUR + t % HOUR / MINUTE * MINUTE + t % MINUTE / 1_000_000 * 1_000_000 + t % 1_000_000
  {
    HourParts(t);
    MinuteParts(t);
  }

  lemma HourParts(t: int)
    requires 0 <= t < DAY
    ensures t == t / HOUR * HOUR + t % HOUR / MINUTE * MINUTE + t % MINUTE
    ensures 0 <= t / HOUR < 24 && 0 <= t % HOUR / MINUTE < 60
  {
    var h := t % HOUR;
    assert t == t / HOUR * HOUR + h && 0 <= h < HOUR;
    assert h == h / MINUTE * MINUTE + h % MINUTE;
    assert t == 60 * (t / HOUR) * MINUTE + h / MINUTE * MINUTE + h % MINUTE;
    ModMinute(t, 60 * (t / HOUR) + h / MINUTE, h % MINUTE);
  }

  lemma MinuteParts(t: int)
    ensures 0 <= t % MINUTE / 1_000_000 < 60
    ensures t % MINUTE == t % MINUTE / 1_000_000 * 1_000_000 + t % 1_000_000
  {
    var m := t % MINUTE;
    assert m == m / 1_000_000 * 1_000_000 + m % 1_000_000;
    assert t == t / MINUTE * MINUTE + m;
    assert t == (60 * (t / MINUTE) + m / 1_000_000) * 1_000_000 + m % 1_000_000;
    ModMillion(t, 60 * (t / MINUTE) + m / 1_000_000, m % 1_000_000);
  }

  lemma ModMinute(t: int, q: int, r: int)
    requires t == q * MINUTE + r && 0 <= r < MINUTE
    ensures t % MINUTE == r
  {
  }

  lemma ModMillion(t: int, q: int, r: int)
    requires t == q * 1_000_000 + r && 0 <= r < 1_000_000
    ensures t % 1_000_000 == r
  {
  }

  lemma ClockFits(instant: int)
    requires 0 <= instant < INSTANTS
    ensures var v := ClockValues(instant);
            v[0] <= 9999 && v[1] <= 12 && v[2] <= 31 && v[3] < 24 && v[4] < 60 && v[5] < 60
  {
    TimeOfDay(instant % DAY);
  }

  lemma ClockReads(instant: int, at: Aware)
    requires 0 <= instant < INSTANTS && instant == at.instant + at.offset
    ensures AtClock(ClockValues(instant), instant % 1_000_000, at.offset) == Some(at)
  {
    var d, t := DateOf(instant), instant % DAY;
    TimeOfDay(t);
    MicrosOfDay(instant);
    DayAndTime(instant);
    ClockAddsUp(d, t / HOUR, t % HOUR / MINUTE, t % MINUTE / 1_000_000, instant % 1_000_000, instant, at.offset);
  }

  lemma DayAndTime(instant: int)
    ensures instant == instant / DAY * DAY + instant % DAY
  {
  }

  lemma ClockAddsUp(d: Date, h: nat, m: nat, s: nat, micros: nat, instant: int, offset: int)
    requires Valid(d) && h < 24 && m < 60 && s < 60
    requires instant == (Ordinal(d) - 1) * DAY + (h * HOUR + m * MINUTE + s * 1_000_000 + micros)
    ensures AtClock([d.year, d.month, d.day, h, m, s], micros, offset) == Some(Aware(instant - offset, offset))
  {
  }

  lemma MicrosOfDay(instant: int)
    ensures instant % DAY % 1_000_000 == instant % 1_000_000
  {
    var t := instant % DAY;
    assert instant == instant / DAY * DAY + t;
    assert t == t / 1_000_000 * 1_000_000 + t % 1_000_000;
    assert instant == (86_400 * (instant / DAY) + t / 1_000_000) * 1_000_000 + t % 1_000_000;
    ModMillion(instant, 86_400 * (instant / DAY) + t / 1_000_000, t % 1_000_000);
  }

  lemma ClockWidths(v: seq<nat>)
    requires |v| == 6
    requires v[0] <= 9999 && v[1] <= 12 && v[2] <= 31 && v[3] < 24 && v[4] < 60 && v[5] < 60
    ensures forall i :: 0 <= i < 6 ==> v[i] < Pow10(CLOCK[i].width)
  {
    assert Pow10(2) == 100;
    assert Pow10(4) == 100 * Pow10(2);
  }

  predicate IsZone(zone: string, offset: int) {
    zone != "" && zone[0] != '.' && ReadZone(zone) == Some(offset)
  }

  lemma FinishFraction(v: seq<nat>, micros: nat, zone: string, offset: int)
    requires |v| == 6 && micros < 1_000_000 && IsZone(zone, offset)
    ensures Finish(v, "." + (WriteFields([micros], FRACTION) + zone)) == AtClock(v, micros, offset)
  {
    var tail := WriteFields([micros], FRACTION) + zone;
    assert ("." + tail)[1..] == tail;
    assert Pow10(6) == 1_000_000;
    ReadWrittenFields([micros], FRACTION, zone);
  }

  lemma ReadFraction(v: seq<nat>, micros: nat, zone: string, offset: int)
    requires |v| == 6 && micros < 1_000_000 && IsZone(zone, offset)
    requires forall i :: 0 <= i < 6 ==> v[i] < Pow10(CLOCK[i].width)
    ensures ReadIso(WriteFields(v, CLOCK) + ("." + (WriteFields([micros], FRACTION) + zone))) == AtClock(v, micros, offset)
  {
    ReadWrittenFields(v, CLOCK, "." + (WriteFields([micros], FRACTION) + zone));
    FinishFraction(v, micros, zone, offset);
  }

  lemma ReadWhole(v: seq<nat>, zone: string, offset: int)
    requires |v| == 6 && IsZone(zone, offset)
    requires forall i :: 0 <= i < 6 ==> v[i] < Pow10(CLOCK[i].width)
    ensures ReadIso(WriteFields(v, CLOCK) + zone) == AtClock(v, 0, offset)
  {
    ReadWrittenFields(v, CLOCK, zone);
  }

  lemma ReadClock(v: seq<nat>, micros: nat, zone: string, offset: int)
    requires |v| == 6 && micros < 1_000_000 && IsZone(zone, offset)
    requires forall i :: 0 <= i < 6 ==> v[i] < Pow10(CLOCK[i].width)
    ensures ReadIso(ClockText(v, micros, zone)) == AtClock(v, micros, offset)
  {
    if micros == 0 {
      ReadWhole(v, zone, offset);
    } else {
      ReadFraction(v, micros, zone, offset);
    }
  }

  /** Reading a clock text gives its instant in the zone it names. */
  lemma ReadZoned(local: int, zone: string, at: Aware)
    requires 0 <= local < INSTANTS && IsZone(zone, at.offset) && local == at.instant + at.offset
    ensures ReadIso(ZonedText(local, zone)) == Some(at)
  {
    ClockFits(local);
    ClockWidths(ClockValues(local));
    ReadClock(ClockValues(local), local % 1_000_000, zone, at.offset);
    ClockReads(local, at);
  }

  /** Reading the text of an instant gives the instant back, in UTC. */
  lemma ReadIsoUtc(instant: int)
    requires 0 <= instant < INSTANTS
    ensures ReadIso(IsoUtc(instant)) == Some(Aware(instant, 0))
  {
    UtcIsZone();
    ReadZoned(instant, "Z", Aware(instant, 0));
  }

  lemma UtcIsZone()
    ensures IsZone("Z", 0)
  {
  }

  lemma OffsetIsRead(hours: nat, minutes: nat)
    requires hours < 24 && minutes < 60
    ensures ReadFields(WriteFields([hours, minutes], OFFSET), OFFSET) == Some(([hours, minutes], ""))
  {
    assert Pow10(2) == 100;
    ReadWrittenFields([hours, minutes], OFFSET, "");
    assert WriteFields([hours, minutes], OFFSET) + "" == WriteFields([hours, minutes], OFFSET);
  }

  lemma SignedIsRead(sign: char, text: string, hours: nat, minutes: nat)
    requires (sign == '+' || sign == '-') && hours < 24 && minutes < 60
    requires ReadFields(text, OFFSET) == Some(([hours, minutes], ""))
    ensures IsZone([sign] + text, ZoneOffset(sign, hours, minutes))
  {
    assert ([sign] + text)[1..] == text;
    assert ([sign] + text)[0] == sign;
  }

  lemma ZoneIsRead(sign: char, hours: nat, minutes: nat)
    requires (sign == '+' || sign == '-') && hours < 24 && minutes < 60
    ensures IsZone(ZoneText(sign, hours, minutes), ZoneOffset(sign, hours, minutes))
    ensures -DAY < ZoneOffset(sign, hours, minutes) < DAY
  {
    OffsetIsRead(hours, minutes);
    SignedIsRead(sign, WriteFields([hours, minutes], OFFSET), hours, minutes);
  }

  lemma ZoneShape(sign: char, hours: nat, minutes: nat)
    requires sign == '+' || sign == '-'
    ensures var zone := ZoneText(sign, hours, minutes);
            |zone| == 6 && PlainText(zone) && IsDigit(zone[5])
  {
    var layout := [Field(2, "")];
    assert OFFSET[1..] == layout && LayoutSize(layout) == 2;
    FieldsShape([hours, minutes], OFFSET);
    assert [hours, minutes][1..] == [minutes] && [minutes][1..] == [];
    assert WriteFields([minutes], layout) == Padded(minutes, 2) + ("" + WriteFields([], []));
    assert WriteFields([minutes], layout) == Padded(minutes, 2);
    assert WriteFields([hours, minutes], OFFSET) == Padded(hours, 2) + (":" + Padded(minutes, 2));
  }

  /** A text of an instant has at most twenty-seven characters, none of them in need of an escape. */
  lemma IsoShape(instant: int)
    requires 0 <= instant < INSTANTS
    ensures |IsoUtc(instant)| <= 27 && PlainText(IsoUtc(instant))
  {
    ZonedShape(instant, "Z");
  }

  /** A clock text ends as its zone does. */
  lemma ZonedShape(local: int, zone: string)
    requires 0 <= local < INSTANTS && zone != "" && PlainText(zone)
    ensures var text := ZonedText(local, zone);
            19 < |text| <= 26 + |zone| && PlainText(text) && text[|text| - 1] == zone[|zone| - 1]
  {
    ZonedParts(ClockValues(local), local % 1_000_000, zone);
  }

  lemma ZonedParts(values: seq<nat>, micros: nat, zone: string)
    requires |values| == 6 && zone != "" && PlainText(zone)
    ensures var text := ClockText(values, micros, zone);
            19 < |text| <= 26 + |zone| && PlainText(text) && text[|text| - 1] == zone[|zone| - 1]
  {
    ClockShape(values);
    FractionShape(micros);
  }

  lemma ClockShape(values: seq<nat>)
    requires |values| == 6
    ensures |WriteFields(values, CLOCK)| == 19 && PlainText(WriteFields(values, CLOCK))
  {
    FieldsShape(values, CLOCK);
    LayoutSizes();
  }

  lemma FractionShape(micros: nat)
    ensures |WriteFields([micros], FRACTION)| == 6 && PlainText(WriteFields([micros], FRACTION))
  {
    FieldsShape([micros], FRACTION);
    LayoutSizes();
  }

  lemma LayoutSizes()
    ensures LayoutSize(CLOCK) == 19 && LayoutSize(FRACTION) == 6
  {
    assert CLOCK[1..] == [Field(2, "-"), Field(2, "T"), Field(2, ":"), Field(2, ":"), Field(2, "")];
    assert CLOCK[1..][1..] == [Field(2, "T"), Field(2, ":"), Field(2, ":"), Field(2, "")];
    assert CLOCK[1..][1..][1..] == [Field(2, ":"), Field(2, ":"), Field(2, "")];
    assert CLOCK[1..][1..][1..][1..] == [Field(2, ":"), Field(2, "")];
    assert CLOCK[1..][1..][1..][1..][1..] == [Field(2, "")];
    assert LayoutSize([Field(2, "")]) == 2;
    assert LayoutSize([Field(2, ":"), Field(2, "")]) == 5;
  }

  /** Characters that a JSON string holds as themselves: printable ASCII (section 7 of RFC 8259), but
      for the quote and the backslash. */
  predicate IsPlain(c: char) {
    32 <= c as int < 127 && c != '"' && c != '\\'
  }

  predicate PlainText(s: string) {
    forall i :: 0 <= i < |s| ==> IsPlain(s[i])
  }

  function LayoutSize(layout: seq<Field>): nat {
    if layout == [] then 0 else layout[0].width + |layout[0].after| + LayoutSize(layout[1..])
  }

  lemma {:induction false} FieldsShape(values: seq<nat>, layout: seq<Field>)
    requires |values| == |layout|
    requires forall i :: 0 <= i < |layout| ==> PlainText(layout[i].after)
    ensures |WriteFields(values, layout)| == LayoutSize(layout)
    ensures PlainText(WriteFields(values, layout))
    decreases |layout|
  {
    if layout != [] {
      FieldsShape(values[1..], layout[1..]);
    }
  }
}
