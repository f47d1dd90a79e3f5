/** The exact texts that cursors are made of. */
module WireTexts {
  import opened Wrappers
  import opened Digits
  import opened Calendar
  import opened Clock
  import opened Base64Url
  import opened Timestamps
  import opened Cursor
  import NotificationCursor

  // ----- base64

  /** Four groups of six bits as one number, the first in front. */
  function GroupNumber(v: seq<sextet>): int
    requires |v| == 4
  {
    ((v[0] as int * 64 + v[1] as int) * 64 + v[2] as int) * 64 + v[3] as int
  }

  lemma OneGroupOf(a: byte, b: byte, c: byte)
    ensures Sextets([a, b, c]) == [Q0(a), Q1(a, b), Q2(b, c), Q3(c)]
  {
    var bytes := [a, b, c];
    assert bytes[3..] == [];
    assert Sextets(bytes[3..]) == [];
  }

  /** Three bytes become four characters that stand for the same number, the first byte in front
      (section 4 of RFC 4648). */
  lemma GroupKeepsNumber(a: byte, b: byte, c: byte)
    ensures |Sextets([a, b, c])| == 4
    ensures GroupNumber(Sextets([a, b, c])) == (a as int * 256 + b as int) * 256 + c as int
  {
    OneGroupOf(a, b, c);
    SplitByte(a, 4);
    SplitByte(b, 16);
    SplitByte(c, 64);
  }

  lemma SplitByte(a: int, n: int)
    requires n > 0
    ensures a == a / n * n + a % n
  {
  }

  lemma FourLetters(p: sextet, q: sextet, r: sextet, s: sextet)
    ensures Letters([p, q, r, s]) == [CharOf(p), CharOf(q), CharOf(r), CharOf(s)]
  {
    assert [p, q, r, s][1..] == [q, r, s];
    assert [q, r, s][1..] == [r, s];
    assert [r, s][1..] == [s];
    assert Letters([s]) == [CharOf(s)];
  }

  lemma EncodedGroup(a: byte, b: byte, c: byte)
    ensures Encode([a, b, c]) == [CharOf(Q0(a)), CharOf(Q1(a, b)), CharOf(Q2(b, c)), CharOf(Q3(c))]
  {
    OneGroupOf(a, b, c);
    FourLetters(Q0(a), Q1(a, b), Q2(b, c), Q3(c));
  }

  /** The texts "foo" and "bar" as section 10 of RFC 4648 gives them, and the two characters that the
      URL-safe alphabet has of its own. */
  lemma KnownEncodings(a: byte, b: byte, c: byte)
    ensures a == 102 && b == 111 && c == 111 ==> Encode([a, b, c]) == "Zm9v"
    ensures a == 98 && b == 97 && c == 114 ==> Encode([a, b, c]) == "YmFy"
    ensures a == 251 && b == 255 && c == 191 ==> Encode([a, b, c]) == "-_-_"
  {
    EncodedGroup(a, b, c);
  }

  // ----- timestamps

  lemma ByHour(q: int, r: int)
    requires 0 <= r < HOUR
    ensures (q * HOUR + r) / HOUR == q && (q * HOUR + r) % HOUR == r
  {
  }

  lemma ByMinute(q: int, r: int)
    requires 0 <= r < MINUTE
    ensures (q * MINUTE + r) / MINUTE == q && (q * MINUTE + r) % MINUTE == r
  {
  }

  lemma BySecond(q: int, r: int)
    requires 0 <= r < 1_000_000
    ensures (q * 1_000_000 + r) / 1_000_000 == q && (q * 1_000_000 + r) % 1_000_000 == r
  {
  }

  lemma ByDay(q: int, r: int)
    requires 0 <= r < DAY
    ensures (q * DAY + r) / DAY == q && (q * DAY + r) % DAY == r
  {
  }

  lemma PartsOf(h: nat, m: nat, s: nat, micros: nat, t: int)
    requires m < 60 && s < 60 && micros < 1_000_000
    requires t == h * HOUR + m * MINUTE + s * 1_000_000 + micros
    ensures t / HOUR == h && t % HOUR / MINUTE == m && t % MINUTE / 1_000_000 == s && t % 1_000_000 == micros
  {
    ByHour(h, m * MINUTE + s * 1_000_000 + micros);
    ByMinute(m, s * 1_000_000 + micros);
    assert t == (60 * h + m) * MINUTE + (s * 1_000_000 + micros);
    ByMinute(60 * h + m, s * 1_000_000 + micros);
    BySecond(s, micros);
    assert t == (3_600 * h + 60 * m + s) * 1_000_000 + micros;
    BySecond(3_600 * h + 60 * m + s, micros);
  }

  lemma FieldInFront(n: nat, f: Field, v: seq<nat>, layout: seq<Field>)
    requires |v| == |layout|
    ensures WriteFields([n] + v, [f] + layout) == Padded(n, f.width) + f.after + WriteFields(v, layout)
  {
    assert ([n] + v)[1..] == v && ([f] + layout)[1..] == layout;
  }

  lemma DateFields(y: nat, mo: nat, d: nat, v: seq<nat>, layout: seq<Field>)
    requires |v| == |layout|
    ensures WriteFields([y, mo, d] + v, [Field(4, "-"), Field(2, "-"), Field(2, "T")] + layout)
         == Padded(y, 4) + "-" + Padded(mo, 2) + "-" + Padded(d, 2) + "T" + WriteFields(v, layout)
  {
    var end, more := [Field(2, "T")] + layout, [Field(2, "-")] + ([Field(2, "T")] + layout);
    FieldInFront(d, Field(2, "T"), v, layout);
    FieldInFront(mo, Field(2, "-"), [d] + v, end);
    FieldInFront(y, Field(4, "-"), [mo] + ([d] + v), more);
    ThreeInFront(y, mo, d, v);
    ThreeInFront(Field(4, "-"), Field(2, "-"), Field(2, "T"), layout);
    Joined(Padded(y, 4), Padded(mo, 2), Padded(d, 2), WriteFields(v, layout));
  }

  lemma ThreeInFront<T>(x: T, y: T, z: T, rest: seq<T>)
    ensures [x, y, z] + rest == [x] + ([y] + ([z] + rest))
  {
  }

  lemma Joined(a: string, b: string, c: string, rest: string)
    ensures a + "-" + (b + "-" + (c + "T" + rest)) == a + "-" + b + "-" + c + "T" + rest
  {
  }

  lemma TimeFields(h: nat, m: nat, s: nat)
    ensures WriteFields([h, m, s], [Field(2, ":"), Field(2, ":"), Field(2, "")])
         == Padded(h, 2) + ":" + Padded(m, 2) + ":" + Padded(s, 2)
  {
    FieldInFront(s, Field(2, ""), [], []);
    FieldInFront(m, Field(2, ":"), [s] + [], [Field(2, "")] + []);
    FieldInFront(h, Field(2, ":"), [m] + ([s] + []), [Field(2, ":")] + ([Field(2, "")] + []));
    assert [h, m, s] == [h] + ([m] + ([s] + []));
    assert [Field(2, ":"), Field(2, ":"), Field(2, "")] == [Field(2, ":")] + ([Field(2, ":")] + ([Field(2, "")] + []));
    assert Padded(s, 2) + "" + "" == Padded(s, 2);
  }

  lemma ClockFields(y: nat, mo: nat, d: nat, h: nat, m: nat, s: nat)
    ensures WriteFields([y, mo, d, h, m, s], CLOCK)
         == Padded(y, 4) + "-" + Padded(mo, 2) + "-" + Padded(d, 2) + "T"
            + (Padded(h, 2) + ":" + Padded(m, 2) + ":" + Padded(s, 2))
  {
    DateFields(y, mo, d, [h, m, s], [Field(2, ":"), Field(2, ":"), Field(2, "")]);
    TimeFields(h, m, s);
    assert [y, mo, d, h, m, s] == [y, mo, d] + [h, m, s];
    assert CLOCK == [Field(4, "-"), Field(2, "-"), Field(2, "T")] + [Field(2, ":"), Field(2, ":"), Field(2, "")];
  }

  lemma DayOf(instant: int, date: Date, ordinal: int, t: int)
    requires Valid(date) && ordinal == Ordinal(date)
    requires 0 <= t < DAY && instant == (ordinal - 1) * DAY + t
    ensures 0 <= instant < INSTANTS && DateOf(instant) == date && instant % DAY == t
  {
    FromOrdinalInverts(date);
    WithinDays(instant, ordinal, t);
  }

  lemma WithinDays(instant: int, ordinal: int, t: int)
    requires 1 <= ordinal <= MAX_ORDINAL && 0 <= t < DAY && instant == (ordinal - 1) * DAY + t
    ensures 0 <= instant < INSTANTS && instant / DAY + 1 == ordinal && instant % DAY == t
  {
    ByDay(ordinal - 1, t);
  }

  lemma WithinDay(h: nat, m: nat, s: nat, micros: nat, t: int)
    requires h < 24 && m < 60 && s < 60 && micros < 1_000_000
    requires t == h * HOUR + m * MINUTE + s * 1_000_000 + micros
    ensures 0 <= t < DAY
  {
  }

  lemma ClockValuesAt(instant: int, date: Date, h: nat, m: nat, s: nat)
    requires 0 <= instant < INSTANTS && DateOf(instant) == date
    requires instant % DAY / HOUR == h && instant % DAY % HOUR / MINUTE == m && instant % DAY % MINUTE / 1_000_000 == s
    ensures ClockValues(instant) == [date.year, date.month, date.day, h, m, s]
  {
  }

  lemma ValuesOf(instant: int, date: Date, h: nat, m: nat, s: nat, micros: nat, t: int)
    requires Valid(date) && h < 24 && m < 60 && s < 60 && micros < 1_000_000
    requires t == h * HOUR + m * MINUTE + s * 1_000_000 + micros && instant == (Ordinal(date) - 1) * DAY + t
    ensures 0 <= instant < INSTANTS
    ensures ClockValues(instant) == [date.year, date.month, date.day, h, m, s] && instant % 1_000_000 == micros
  {
    WithinDay(h, m, s, micros, t);
    DayOf(instant, date, Ordinal(date), t);
    PartsOf(h, m, s, micros, t);
    MicrosOfDay(instant);
    ClockValuesAt(instant, date, h, m, s);
  }

  /** The text of an instant by its calendar fields: year, month and day, a T, the hour, minute and
      second, the microseconds only when there are any, and a Z. */
  lemma InstantText(instant: int, date: Date, h: nat, m: nat, s: nat, micros: nat)
    requires Valid(date) && h < 24 && m < 60 && s < 60 && micros < 1_000_000
    requires instant == (Ordinal(date) - 1) * DAY + (h * HOUR + m * MINUTE + s * 1_000_000 + micros)
    ensures 0 <= instant < INSTANTS
    ensures IsoUtc(instant)
         == Padded(date.year, 4) + "-" + Padded(date.month, 2) + "-" + Padded(date.day, 2) + "T"
            + (Padded(h, 2) + ":" + Padded(m, 2) + ":" + Padded(s, 2))
            + (if micros == 0 then "Z" else "." + Padded(micros, 6) + "Z")
  {
    ValuesOf(instant, date, h, m, s, micros, h * HOUR + m * MINUTE + s * 1_000_000 + micros);
    ClockFields(date.year, date.month, date.day, h, m, s);
    MicrosText(micros);
  }

  lemma MicrosText(micros: nat)
    ensures "." + (WriteFields([micros], FRACTION) + "Z") == "." + Padded(micros, 6) + "Z"
  {
    FieldInFront(micros, Field(6, ""), [], []);
    assert [micros] + [] == [micros] && [Field(6, "")] + [] == FRACTION;
    assert Padded(micros, 6) + "" + "" == Padded(micros, 6);
  }

  // ----- payloads

  lemma {:induction false} TextAppends(a: seq<byte>, b: seq<byte>)
    ensures Text(a + b) == Text(a) + Text(b)
  {
    if a == [] {
      assert a + b == b;
    } else {
      TextAppends(a[1..], b);
      assert (a + b)[1..] == a[1..] + b;
    }
  }

  lemma TextOfDump(a: string, b: string)
    requires PlainText(a) && PlainText(b)
    ensures Text(Dump(a, b)) == "[\"" + a + "\",\"" + b + "\"]"
  {
    TextOfBytes(a);
    TextOfBytes(b);
    var tail := Bytes(b) + [QUOTE, CLOSE];
    TextAppends(Bytes(b), [QUOTE, CLOSE]);
    TextAppends([QUOTE, COMMA, QUOTE], tail);
    TextAppends(Bytes(a), [QUOTE, COMMA, QUOTE] + tail);
    TextAppends([OPEN, QUOTE], Bytes(a) + ([QUOTE, COMMA, QUOTE] + tail));
    Brackets();
    assert "[\"" + (a + ("\",\"" + (b + "\"]"))) == "[\"" + a + "\",\"" + b + "\"]";
  }

  lemma Brackets()
    ensures Text([OPEN, QUOTE]) == "[\"" && Text([QUOTE, CLOSE]) == "\"]" && Text([QUOTE, COMMA, QUOTE]) == "\",\""
  {
    assert [OPEN, QUOTE][1..] == [QUOTE] && [QUOTE][1..] == [];
    assert [QUOTE, CLOSE][1..] == [CLOSE] && [CLOSE][1..] == [];
    assert [QUOTE, COMMA, QUOTE][1..] == [COMMA, QUOTE] && [COMMA, QUOTE][1..] == [QUOTE];
  }

  /** A campaign cursor is the unpadded base64url form of a compact JSON array: the text of its instant
      in UTC, and its id. */
  lemma CursorText(p: Position)
    requires ValidPosition(p) && InUtcRange(p.observedAt)
    ensures EncodePosition(p).Some? && Decode(EncodePosition(p).value).Some?
    ensures Text(Decode(EncodePosition(p).value).value)
         == "[\"" + IsoUtc(p.observedAt.instant) + "\",\"" + p.id + "\"]"
  {
    IsoShape(p.observedAt.instant);
    ValidIdIsPlain(p.id);
    DecodeEncode(Payload(p.observedAt.instant, p.id));
    TextOfDump(IsoUtc(p.observedAt.instant), p.id);
  }

  /** A feed cursor is that of the marker "v2" and the sequence's digits. */
  lemma FeedCursorText(n: nat)
    ensures Decode(NotificationCursor.EncodeSequence(n)).Some?
    ensures Text(Decode(NotificationCursor.EncodeSequence(n)).value) == "[\"v2\",\"" + Numeral(n) + "\"]"
  {
    NotificationCursor.NumeralIsPlain(n);
    DecodeEncode(Dump("v2", Numeral(n)));
    TextOfDump("v2", Numeral(n));
  }
}
