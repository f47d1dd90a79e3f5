/** The opaque keyset cursor: a UTC timestamp and a campaign id, as a compact JSON pair, in unpadded
    base64url. The base64, JSON and timestamp readers of the standard library accept more texts than
    the cursor is ever written in, so they are parameters: all that is asked of them is that they
    read back canonical texts. */
module Cursor {
  import opened Wrappers
  import opened Clock
  import opened Base64Url
  import opened Timestamps
  import opened Digits

  const MAX_ENCODED_LENGTH := 500

  datatype Position = Position(observedAt: Aware, id: string)

  /** What a decode comes to; `Overflowed` is the one failure that is not an invalid-cursor error:
      the timestamp has no UTC counterpart within the calendar. */
  datatype Decoded = Accepted(position: Position) | Rejected | Overflowed

  /** The readers; `trim` strips the whitespace around an id. */
  datatype Readers = Readers(
    base64: string -> Option<seq<byte>>,
    json: seq<byte> -> Option<seq<string>>,
    iso: string -> Option<Aware>,
    trim: string -> string)

  predicate IdStart(c: char) {
    'A' <= c <= 'Z' || 'a' <= c <= 'z' || '0' <= c <= '9'
  }

  predicate ValidId(id: string) {
    && 1 <= |id| <= 191
    && IdStart(id[0])
    && forall i :: 0 <= i < |id| ==> IdStart(id[i]) || id[i] == ':' || id[i] == '.' || id[i] == '_' || id[i] == '-'
  }

  /** A position the contract admits. */
  predicate ValidPosition(p: Position) {
    Representable(p.observedAt) && ValidId(p.id)
  }

  predicate InUtcRange(t: Aware) {
    0 <= t.instant < INSTANTS
  }

  function Bytes(s: string): (b: seq<byte>)
    requires PlainText(s)
    ensures |b| == |s|
  {
    if s == "" then [] else [s[0] as int] + Bytes(s[1..])
  }

  function Text(b: seq<byte>): (s: string)
    ensures |s| == |b|
  {
    if b == [] then "" else [b[0] as char] + Text(b[1..])
  }

  const QUOTE: byte := 34
  const COMMA: byte := 44
  const OPEN: byte := 91
  const CLOSE: byte := 93

  /** The compact JSON array of two strings that need no escapes. */
  function Dump(a: string, b: string): seq<byte>
    requires PlainText(a) && PlainText(b)
  {
    [OPEN, QUOTE] + (Bytes(a) + ([QUOTE, COMMA, QUOTE] + (Bytes(b) + [QUOTE, CLOSE])))
  }

  lemma ValidIdIsPlain(id: string)
    requires ValidId(id)
    ensures PlainText(id)
  {
  }

  function Payload(instant: int, id: string): seq<byte>
    requires 0 <= instant < INSTANTS && ValidId(id)
  {
    IsoShape(instant);
    ValidIdIsPlain(id);
    Dump(IsoUtc(instant), id)
  }

  /** The text of a position; none when its instant lies outside the calendar in UTC. */
  function EncodePosition(p: Position): Option<string>
    requires ValidId(p.id)
  {
    if InUtcRange(p.observedAt) then Some(Base64Url.Encode(Payload(p.observedAt.instant, p.id))) else None
  }

  predicate Ascii(s: string) {
    forall i :: 0 <= i < |s| ==> (s[i] as int) < 128
  }

  /** What the readers make of a text, before the canonical check. */
  function ReadPosition(r: Readers, value: string): Option<Position> {
    if value == "" || |value| > MAX_ENCODED_LENGTH || !Ascii(value) then None
    else
      var raw := r.base64(value);
      if raw.None? then None
      else
        var items := r.json(raw.value);
        if items.None? || |items.value| != 2 then None
        else
          var at := r.iso(items.value[0]);
          var id := r.trim(items.value[1]);
          if at.None? || !Representable(at.value) || !ValidId(id) then None else Some(Position(at.value, id))
  }

  function DecodeValue(r: Readers, value: string): Decoded {
    var position := ReadPosition(r, value);
    if position.None? then Rejected
    else
      var again := EncodePosition(position.value);
      if again.None? then Overflowed
      else if again.value != value then Rejected
      else Accepted(position.value)
  }

  /** Readers that read back canonical texts. */
  ghost predicate Conforming(r: Readers) {
    && (forall b :: r.base64(Base64Url.Encode(b)) == Some(b))
    && (forall a, b :: PlainText(a) && PlainText(b) ==> r.json(Dump(a, b)) == Some([a, b]))
    && (forall instant :: 0 <= instant < INSTANTS ==> r.iso(IsoUtc(instant)) == Some(Aware(instant, 0)))
    && (forall id :: ValidId(id) ==> r.trim(id) == id)
  }

  /** The position as the cursor carries it: the same instant, in UTC. */
  function InUtc(p: Position): Position {
    p.(observedAt := Aware(p.observedAt.instant, 0))
  }

  lemma PayloadSize(instant: int, id: string)
    requires 0 <= instant < INSTANTS && ValidId(id)
    ensures |Payload(instant, id)| <= 34 + |id|
  {
    IsoShape(instant);
  }

  // ----- main results

  /** Decoding undoes encoding for every valid position: the same instant and id come back, whatever
      zone the instant was stated in, and the text is well under the length limit. */
  lemma DecodeUndoesEncode(r: Readers, p: Position)
    requires Conforming(r) && ValidPosition(p) && InUtcRange(p.observedAt)
    ensures EncodePosition(p).Some?
    ensures |EncodePosition(p).value| <= 300
    ensures DecodeValue(r, EncodePosition(p).value) == Accepted(InUtc(p))
  {
    var instant := p.observedAt.instant;
    var payload := Payload(instant, p.id);
    var value := Base64Url.Encode(payload);
    DecodeEncode(payload);
    PayloadSize(instant, p.id);
    IsoShape(instant);
    ValidIdIsPlain(p.id);
    assert payload == Dump(IsoUtc(instant), p.id);
    assert |payload| >= 2;
    assert value != "";
    assert ReadPosition(r, value) == Some(InUtc(p));
  }

  /** A text is accepted if and only if it is the encoding of some valid position, and then what
      comes back is that position in UTC: accepted texts and UTC positions are in bijection. */
  lemma AcceptedAreEncodings(r: Readers, value: string)
    requires Conforming(r)
    ensures DecodeValue(r, value).Accepted? <==>
              exists p :: ValidPosition(p) && EncodePosition(p) == Some(value)
    ensures forall p :: ValidPosition(p) && EncodePosition(p) == Some(value) ==>
              DecodeValue(r, value) == Accepted(InUtc(p))
  {
    if DecodeValue(r, value).Accepted? {
      var p := DecodeValue(r, value).position;
      assert ValidPosition(p) && EncodePosition(p) == Some(value);
    }
    forall p | ValidPosition(p) && EncodePosition(p) == Some(value)
      ensures DecodeValue(r, value) == Accepted(InUtc(p))
    {
      DecodeUndoesEncode(r, p);
    }
  }

  /** Which conforming readers are used does not matter: the canonical check leaves one set of
      accepted texts and one position for each. */
  lemma ReadersDoNotMatter(r: Readers, q: Readers, value: string)
    requires Conforming(r) && Conforming(q)
    requires DecodeValue(r, value).Accepted?
    ensures DecodeValue(q, value) == DecodeValue(r, value)
  {
    AcceptedAreEncodings(r, value);
    AcceptedAreEncodings(q, value);
    var p := DecodeValue(r, value).position;
    assert ValidPosition(p) && EncodePosition(p) == Some(value);
  }

  /** Two valid positions share a text exactly when they are the same instant and id. */
  lemma EncodingIsInjective(r: Readers, p: Position, q: Position)
    requires Conforming(r) && ValidPosition(p) && ValidPosition(q)
    requires InUtcRange(p.observedAt) && InUtcRange(q.observedAt)
    ensures EncodePosition(p) == EncodePosition(q) <==> InUtc(p) == InUtc(q)
  {
    DecodeUndoesEncode(r, p);
    DecodeUndoesEncode(r, q);
  }

  /** Fit ids are those of 1 to 191 ASCII letters, digits, colons, dots, underscores and hyphens that start
      with a letter or digit. */
  lemma FitIdsExactly(id: string)
    ensures ValidId(id) <==>
              && 0 < |id| < 192
              && id[0] != ':' && id[0] != '.' && id[0] != '_' && id[0] != '-'
              && (forall c :: c in id ==>
                    || c == ':' || c == '.' || c == '_' || c == '-'
                    || '0' <= c <= '9' || 'A' <= c <= 'Z' || 'a' <= c <= 'z')
  {
    forall i | 0 <= i < |id|
      ensures id[i] in id
    {
    }
  }

  /** A text of more than 500 characters, or with one outside ASCII, is refused unread. */
  lemma LongTextsRefused(r: Readers, value: string)
    requires |value| > 500 || exists i :: 0 <= i < |value| && value[i] as int >= 128
    ensures DecodeValue(r, value) == Rejected
  {
  }

  // ----- timestamps in a zone

  lemma ReadsWritten(r: Readers, text: string, id: string)
    requires Conforming(r) && PlainText(text) && |text| <= 100 && ValidId(id)
    ensures PlainText(id)
    ensures var payload := Dump(text, id);
            var value := Base64Url.Encode(payload);
            && value != "" && |value| <= MAX_ENCODED_LENGTH && Ascii(value)
            && r.base64(value) == Some(payload) && r.json(payload) == Some([text, id])
  {
    ValidIdIsPlain(id);
    var payload := Dump(text, id);
    DecodeEncode(payload);
    assert |payload| == |text| + |id| + 7;
  }

  /** Two different texts make two different cursors. */
  lemma WrittenApart(r: Readers, a: string, b: string, id: string)
    requires Conforming(r) && PlainText(a) && |a| <= 100 && PlainText(b) && |b| <= 100 && ValidId(id)
    ensures PlainText(id)
    ensures Base64Url.Encode(Dump(a, id)) == Base64Url.Encode(Dump(b, id)) ==> a == b
  {
    ReadsWritten(r, a, id);
    ReadsWritten(r, b, id);
    assert [a, id][0] == a && [b, id][0] == b;
  }

  /** A cursor whose timestamp names its zone by hours and minutes is never accepted. It overflows,
      and so ends in another error than the invalid-cursor one, exactly when its clock reads less
      than the zone's offset past the calendar's start, or as much before its end; the canonical
      check turns down every other. */
  lemma OverflowExactly(r: Readers, local: int, sign: char, hours: nat, minutes: nat, id: string, at: Aware)
    requires Conforming(r) && ValidId(id)
    requires 0 <= local < INSTANTS && (sign == '+' || sign == '-') && hours < 24 && minutes < 60
    requires at.offset == ZoneOffset(sign, hours, minutes) && local == at.instant + at.offset
    requires r.iso(ZonedText(local, ZoneText(sign, hours, minutes))) == Some(at)
    ensures PlainText(ZonedText(local, ZoneText(sign, hours, minutes))) && PlainText(id)
    ensures var size := hours * HOUR + minutes * MINUTE;
            DecodeValue(r, Base64Url.Encode(Dump(ZonedText(local, ZoneText(sign, hours, minutes)), id)))
            == if (sign == '+' && local < size) || (sign == '-' && INSTANTS - local <= size) then Overflowed else Rejected
  {
    ZonedIsWritable(local, sign, hours, minutes);
    ZoneSides(local, sign, hours, minutes);
    OverflowOf(r, ZonedText(local, ZoneText(sign, hours, minutes)), at, id);
  }

  lemma ZonedIsWritable(local: int, sign: char, hours: nat, minutes: nat)
    requires 0 <= local < INSTANTS && (sign == '+' || sign == '-')
    ensures var text := ZonedText(local, ZoneText(sign, hours, minutes));
            PlainText(text) && 0 < |text| <= 100 && IsDigit(text[|text| - 1])
  {
    ZoneShape(sign, hours, minutes);
    ZonedShape(local, ZoneText(sign, hours, minutes));
  }

  lemma ZoneSides(local: int, sign: char, hours: nat, minutes: nat)
    requires 0 <= local < INSTANTS && (sign == '+' || sign == '-') && hours < 24 && minutes < 60
    ensures -DAY < ZoneOffset(sign, hours, minutes) < DAY
    ensures var size := hours * HOUR + minutes * MINUTE;
            (sign == '+' && local < size) || (sign == '-' && INSTANTS - local <= size) <==>
              !(0 <= local - ZoneOffset(sign, hours, minutes) < INSTANTS)
  {
  }

  lemma OverflowOf(r: Readers, text: string, at: Aware, id: string)
    requires Conforming(r) && ValidId(id) && Representable(at)
    requires PlainText(text) && 0 < |text| <= 100 && IsDigit(text[|text| - 1])
    requires r.iso(text) == Some(at)
    ensures PlainText(id)
    ensures DecodeValue(r, Base64Url.Encode(Dump(text, id)))
         == if InUtcRange(at) then Rejected else Overflowed
  {
    PositionRead(r, text, at, id);
    if InUtcRange(at) {
      NotCanonical(r, text, at, id);
    }
  }

  lemma PositionRead(r: Readers, text: string, at: Aware, id: string)
    requires Conforming(r) && ValidId(id) && Representable(at)
    requires PlainText(text) && |text| <= 100 && r.iso(text) == Some(at)
    ensures PlainText(id)
    ensures ReadPosition(r, Base64Url.Encode(Dump(text, id))) == Some(Position(at, id))
  {
    ReadsWritten(r, text, id);
  }

  lemma NotCanonical(r: Readers, text: string, at: Aware, id: string)
    requires Conforming(r) && ValidId(id) && InUtcRange(at)
    requires PlainText(text) && 0 < |text| <= 100 && IsDigit(text[|text| - 1])
    ensures PlainText(id)
    ensures EncodePosition(Position(at, id)) != Some(Base64Url.Encode(Dump(text, id)))
  {
    ValidIdIsPlain(id);
    IsoShape(at.instant);
    ZonedShape(at.instant, "Z");
    WrittenApart(r, text, IsoUtc(at.instant), id);
  }

  // ----- one conforming set of readers

  lemma {:induction false} TextOfBytes(s: string)
    requires PlainText(s)
    ensures Text(Bytes(s)) == s
    ensures forall i :: 0 <= i < |s| ==> Bytes(s)[i] == s[i] as int && Bytes(s)[i] < 127 && IsPlain(Bytes(s)[i] as char)
  {
    if s != "" {
      TextOfBytes(s[1..]);
      assert s == [s[0]] + s[1..];
    }
  }

  /** The bytes before the next quote, and those after it; a string that needs escapes is refused. */
  function UpToQuote(b: seq<byte>): Option<(seq<byte>, seq<byte>)>
  {
    if b == [] then None
    else if b[0] == QUOTE then Some(([], b[1..]))
    else if b[0] >= 127 || !IsPlain(b[0] as char) then None
    else
      var rest := UpToQuote(b[1..]);
      if rest.None? then None else Some(([b[0]] + rest.value.0, rest.value.1))
  }

  /** A compact array of two strings without escapes. */
  function ReadPair(b: seq<byte>): Option<seq<string>> {
    if !([OPEN, QUOTE] <= b) then None
    else
      var first := UpToQuote(b[2..]);
      if first.None? || !([COMMA, QUOTE] <= first.value.1) then None
      else
        var second := UpToQuote(first.value.1[2..]);
        if second.None? || second.value.1 != [CLOSE] then None
        else Some([Text(first.value.0), Text(second.value.0)])
  }

  lemma {:induction false} UpToQuoteFinds(b: seq<byte>, rest: seq<byte>)
    requires forall i :: 0 <= i < |b| ==> b[i] < 127 && IsPlain(b[i] as char)
    ensures UpToQuote(b + ([QUOTE] + rest)) == Some((b, rest))
  {
    var s := b + ([QUOTE] + rest);
    if b == [] {
      assert s == [QUOTE] + rest;
    } else {
      assert s[1..] == b[1..] + ([QUOTE] + rest);
      UpToQuoteFinds(b[1..], rest);
      assert b == [b[0]] + b[1..];
    }
  }

  lemma ReadPairOfDump(a: string, b: string)
    requires PlainText(a) && PlainText(b)
    ensures ReadPair(Dump(a, b)) == Some([a, b])
  {
    TextOfBytes(a);
    TextOfBytes(b);
    var tail := Bytes(b) + [QUOTE, CLOSE];
    FirstString(Dump(a, b), Bytes(a), [COMMA, QUOTE] + tail);
    assert ([COMMA, QUOTE] + tail)[2..] == tail;
    SecondString(tail, Bytes(b));
  }

  lemma FirstString(dump: seq<byte>, a: seq<byte>, rest: seq<byte>)
    requires forall i :: 0 <= i < |a| ==> a[i] < 127 && IsPlain(a[i] as char)
    requires 3 <= |rest| && dump == [OPEN, QUOTE] + (a + ([QUOTE] + rest))
    ensures [OPEN, QUOTE] <= dump && UpToQuote(dump[2..]) == Some((a, rest))
  {
    assert dump[2..] == a + ([QUOTE] + rest);
    UpToQuoteFinds(a, rest);
  }

  lemma SecondString(tail: seq<byte>, b: seq<byte>)
    requires forall i :: 0 <= i < |b| ==> b[i] < 127 && IsPlain(b[i] as char)
    requires tail == b + [QUOTE, CLOSE]
    ensures UpToQuote(tail) == Some((b, [CLOSE]))
  {
    assert tail == b + ([QUOTE] + [CLOSE]);
    UpToQuoteFinds(b, [CLOSE]);
  }

  function Plainest(): Readers {
    Readers(s => Base64Url.Decode(s), b => ReadPair(b), s => ReadIso(s), s => s)
  }

  lemma PlainestConforms()
    ensures Conforming(Plainest())
  {
    var r := Plainest();
    forall b
      ensures r.base64(Base64Url.Encode(b)) == Some(b)
    {
      DecodeEncode(b);
    }
    forall a, b | PlainText(a) && PlainText(b)
      ensures r.json(Dump(a, b)) == Some([a, b])
    {
      ReadPairOfDump(a, b);
    }
    forall instant | 0 <= instant < INSTANTS
      ensures r.iso(IsoUtc(instant)) == Some(Aware(instant, 0))
    {
      ReadIsoUtc(instant);
    }
  }

  // ----- the overflow occurs

  /** The plainest readers read zones, so midnight of the first day of the year 1, in a zone fourteen
      hours ahead, overflows. */
  lemma OverflowHappens()
    ensures PlainText(ZonedText(0, ZoneText('+', 14, 0))) && PlainText("a")
    ensures DecodeValue(Plainest(), Base64Url.Encode(Dump(ZonedText(0, ZoneText('+', 14, 0)), "a"))) == Overflowed
  {
    PlainestConforms();
    PlainestOverflows(0, '+', 14, 0, "a");
  }

  lemma PlainestOverflows(local: int, sign: char, hours: nat, minutes: nat, id: string)
    requires ValidId(id) && Conforming(Plainest())
    requires 0 <= local < INSTANTS && (sign == '+' || sign == '-') && hours < 24 && minutes < 60
    requires (sign == '+' && local < hours * HOUR + minutes * MINUTE)
          || (sign == '-' && INSTANTS - local <= hours * HOUR + minutes * MINUTE)
    ensures PlainText(ZonedText(local, ZoneText(sign, hours, minutes))) && PlainText(id)
    ensures DecodeValue(Plainest(), Base64Url.Encode(Dump(ZonedText(local, ZoneText(sign, hours, minutes)), id))) == Overflowed
  {
    var offset := ZoneOffset(sign, hours, minutes);
    ZoneIsRead(sign, hours, minutes);
    PlainestReadsZoned(local, ZoneText(sign, hours, minutes), Aware(local - offset, offset));
    OverflowExactly(Plainest(), local, sign, hours, minutes, id, Aware(local - offset, offset));
  }

  lemma PlainestReadsZoned(local: int, zone: string, at: Aware)
    requires 0 <= local < INSTANTS && IsZone(zone, at.offset) && local == at.instant + at.offset
    ensures Plainest().iso(ZonedText(local, zone)) == Some(at)
  {
    ReadZoned(local, zone, at);
    PlainestIso(ZonedText(local, zone));
  }

  lemma PlainestIso(text: string)
    ensures Plainest().iso(text) == ReadIso(text)
  {
  }
}
