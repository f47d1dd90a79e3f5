/** The cursor of the notification feed: the marker of the second version with a feed sequence, as a
    compact JSON pair in unpadded base64url. Cursors of the first version, a timestamp with an event
    id, are still read, and all mean the start of the feed. */
module NotificationCursor {
  import opened Wrappers
  import opened Base64Url
  import opened Timestamps
  import opened Digits
  import Cursor

  const VERSION := "v2"
  const MAX_SEQUENCE := 9_223_372_036_854_775_807

  datatype Decoded = Accepted(sequence: nat) | Rejected | Overflowed

  /** The readers of the campaign cursor, and one that gives an event id its canonical text. */
  datatype Readers = Readers(basic: Cursor.Readers, uuid: string -> Option<string>)

  predicate InFeed(n: int) {
    0 <= n <= MAX_SEQUENCE
  }

  predicate IsHex(c: char) {
    IsDigit(c) || 'a' <= c <= 'f'
  }

  /** The canonical text of an event id. */
  predicate CanonicalId(s: string) {
    |s| == 36
    && forall i :: 0 <= i < 36 ==> if i == 8 || i == 13 || i == 18 || i == 23 then s[i] == '-' else IsHex(s[i])
  }

  function Write(a: string, b: string): string
    requires PlainText(a) && PlainText(b)
  {
    Encode(Cursor.Dump(a, b))
  }

  lemma NumeralIsPlain(n: nat)
    ensures PlainText(Numeral(n)) && AllDigits(Numeral(n)) && DigitsValue(Numeral(n)) == n
  {
    NumeralReads(n);
  }

  function EncodeSequence(n: nat): string {
    NumeralIsPlain(n);
    Write(VERSION, Numeral(n))
  }

  function EncodeLegacy(instant: int, id: string): string
    requires 0 <= instant < INSTANTS && CanonicalId(id)
  {
    IsoShape(instant);
    Write(IsoUtc(instant), id)
  }

  function ReadPair(r: Readers, value: string): Option<(string, string)> {
    if value == "" || |value| > Cursor.MAX_ENCODED_LENGTH || !Cursor.Ascii(value) then None
    else
      var raw := r.basic.base64(value);
      if raw.None? then None
      else
        var items := r.basic.json(raw.value);
        if items.None? || |items.value| != 2 then None else Some((items.value[0], items.value[1]))
  }

  function DecodeSequence(text: string, value: string): Decoded {
    if text == "" || !AllDigits(text) then Rejected
    else
      var n := DigitsValue(text);
      if !InFeed(n) || Numeral(n) != text || EncodeSequence(n) != value then Rejected else Accepted(n)
  }

  function DecodeLegacy(r: Readers, at: string, id: string, value: string): Decoded {
    var created, event := r.basic.iso(at), r.uuid(id);
    if created.None? || event.None? || !CanonicalId(event.value) then Rejected
    else if !Cursor.InUtcRange(created.value) then Overflowed
    else if EncodeLegacy(created.value.instant, event.value) != value then Rejected
    else Accepted(0)
  }

  function DecodeValue(r: Readers, value: string): Decoded {
    var pair := ReadPair(r, value);
    if pair.None? then Rejected
    else if pair.value.0 == VERSION then DecodeSequence(pair.value.1, value)
    else DecodeLegacy(r, pair.value.0, pair.value.1, value)
  }

  ghost predicate Conforming(r: Readers) {
    Cursor.Conforming(r.basic) && forall id :: CanonicalId(id) ==> r.uuid(id) == Some(id)
  }

  // ----- sizes

  lemma {:induction false} NumeralSize(n: nat, w: nat)
    requires n < Pow10(w) && w > 0
    ensures |Numeral(n)| <= w
  {
    if n >= 10 {
      assert w > 1 by { assert Pow10(1) == 10 * Pow10(0); }
      NumeralSize(n / 10, w - 1);
    }
  }

  lemma ReadsPair(r: Readers, a: string, b: string)
    requires Conforming(r) && PlainText(a) && PlainText(b) && |a| + |b| <= 300
    ensures ReadPair(r, Write(a, b)) == Some((a, b))
  {
    var payload := Cursor.Dump(a, b);
    DecodeEncode(payload);
    assert |payload| == |a| + |b| + 7;
    assert r.basic.json(payload) == Some([a, b]);
  }

  lemma SequenceFits(n: nat)
    requires InFeed(n)
    ensures |Numeral(n)| <= 20
  {
    HundredQuintillion();
    NumeralSize(n, 20);
  }

  lemma PowAdd(a: nat, b: nat)
    ensures Pow10(a + b) == Pow10(a) * Pow10(b)
  {
    if a > 0 {
      PowAdd(a - 1, b);
    }
  }

  lemma HundredQuintillion()
    ensures Pow10(20) > MAX_SEQUENCE
  {
    assert Pow10(5) == 100_000;
    PowAdd(5, 5);
    PowAdd(10, 10);
  }

  lemma IsoIsNoVersion(instant: int)
    requires 0 <= instant < INSTANTS
    ensures IsoUtc(instant) != VERSION
  {
    ClockShape(ClockValues(instant));
  }

  // ----- main results

  /** Decoding undoes encoding for every sequence the feed can hold. */
  lemma DecodeUndoesEncode(r: Readers, n: nat)
    requires Conforming(r) && InFeed(n)
    ensures DecodeValue(r, EncodeSequence(n)) == Accepted(n)
  {
    NumeralIsPlain(n);
    SequenceFits(n);
    ReadsPair(r, VERSION, Numeral(n));
  }

  /** Every canonical first-version cursor means the start of the feed. */
  lemma LegacyReplays(r: Readers, instant: int, id: string)
    requires Conforming(r) && 0 <= instant < INSTANTS && CanonicalId(id)
    ensures DecodeValue(r, EncodeLegacy(instant, id)) == Accepted(0)
  {
    IsoShape(instant);
    IsoIsNoVersion(instant);
    ReadsPair(r, IsoUtc(instant), id);
    assert r.basic.iso(IsoUtc(instant)) == Some(Aware(instant, 0));
  }

  ghost predicate IsLegacy(value: string) {
    exists instant, id :: 0 <= instant < INSTANTS && CanonicalId(id) && value == EncodeLegacy(instant, id)
  }

  /** A text is accepted as a sequence if and only if it is that sequence's own cursor, or the
      sequence is the start of the feed and the text a first-version cursor. */
  lemma AcceptedExactly(r: Readers, value: string, n: nat)
    requires Conforming(r)
    ensures DecodeValue(r, value) == Accepted(n) <==>
              (n < 0x8000_0000_0000_0000 && value == EncodeSequence(n)) || (n == 0 && IsLegacy(value))
  {
    if DecodeValue(r, value) == Accepted(n) {
      AcceptedIsWritten(r, value, n);
    }
    if InFeed(n) && value == EncodeSequence(n) {
      DecodeUndoesEncode(r, n);
    }
    if n == 0 && IsLegacy(value) {
      var instant, id :| 0 <= instant < INSTANTS && CanonicalId(id) && value == EncodeLegacy(instant, id);
      LegacyReplays(r, instant, id);
    }
  }

  lemma AcceptedIsWritten(r: Readers, value: string, n: nat)
    requires DecodeValue(r, value) == Accepted(n)
    ensures (InFeed(n) && value == EncodeSequence(n)) || (n == 0 && IsLegacy(value))
  {
    var pair := ReadPair(r, value).value;
    if pair.0 != VERSION {
      var created, event := r.basic.iso(pair.0).value, r.uuid(pair.1).value;
      assert value == EncodeLegacy(created.instant, event);
    }
  }

  /** A text overflows exactly when it is read as a pair of a timestamp outside the calendar in UTC and
      an event id. */
  lemma OverflowExactly(r: Readers, value: string)
    ensures DecodeValue(r, value) == Overflowed <==>
              && ReadPair(r, value).Some?
              && var (at, id) := ReadPair(r, value).value;
                 && at != "v2" && r.basic.iso(at).Some? && !Cursor.InUtcRange(r.basic.iso(at).value)
                 && r.uuid(id).Some? && CanonicalId(r.uuid(id).value)
  {
  }

  predicate AllHex(s: string, n: nat) {
    |s| == n && forall i :: 0 <= i < n ==> '0' <= s[i] <= '9' || 'a' <= s[i] <= 'f'
  }

  /** An event id is five groups of lower-case hexadecimal digits joined by hyphens, of 8, 4, 4, 4 and 12. */
  lemma CanonicalIdExactly(a: string, b: string, c: string, d: string, e: string)
    requires |a| == 8 && |b| == 4 && |c| == 4 && |d| == 4 && |e| == 12
    ensures CanonicalId(a + "-" + b + "-" + c + "-" + d + "-" + e) <==>
              AllHex(a, 8) && AllHex(b, 4) && AllHex(c, 4) && AllHex(d, 4) && AllHex(e, 12)
  {
    var s := a + "-" + b + "-" + c + "-" + d + "-" + e;
    assert s[..8] == a && s[9..13] == b && s[14..18] == c && s[19..23] == d && s[24..] == e;
    if CanonicalId(s) {
      forall i | 0 <= i < 36 && i != 8 && i != 13 && i != 18 && i != 23
        ensures IsHex(s[i])
      {
      }
    }
  }
}
