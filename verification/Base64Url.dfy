/** Unpadded base64 with the URL-safe alphabet (sections 3.2 and 5 of RFC 4648). */
module Base64Url {
  import opened Wrappers

  type byte = b: int | 0 <= b < 256

  type sextet = v: int | 0 <= v < 64

  // ----- the alphabet

  function CharOf(v: sextet): (c: char)
    ensures ValueOf(c) == Some(v)
    ensures (c as int) < 128
  {
    if v < 26 then ('A' as int + v) as char
    else if v < 52 then ('a' as int + (v - 26)) as char
    else if v < 62 then ('0' as int + (v - 52)) as char
    else if v == 62 then '-'
    else '_'
  }

  function ValueOf(c: char): Option<sextet> {
    if 'A' <= c <= 'Z' then Some(c as int - 'A' as int)
    else if 'a' <= c <= 'z' then Some(26 + (c as int - 'a' as int))
    else if '0' <= c <= '9' then Some(52 + (c as int - '0' as int))
    else if c == '-' then Some(62)
    else if c == '_' then Some(63)
    else None
  }

  function Letters(v: seq<sextet>): (s: string)
    ensures |s| == |v|
    ensures forall i :: 0 <= i < |s| ==> ValueOf(s[i]) == Some(v[i]) && (s[i] as int) < 128
  {
    if v == [] then "" else [CharOf(v[0])] + Letters(v[1..])
  }

  function Values(s: string): (v: Option<seq<sextet>>)
  {
    if s == "" then Some([])
    else
      var rest := Values(s[1..]);
      if ValueOf(s[0]).None? || rest.None? then None else Some([ValueOf(s[0]).value] + rest.value)
  }

  lemma {:induction false} ValuesOfLetters(v: seq<sextet>)
    ensures Values(Letters(v)) == Some(v)
  {
    if v != [] {
      ValuesOfLetters(v[1..]);
      assert Letters(v)[1..] == Letters(v[1..]);
      assert v == [v[0]] + v[1..];
    }
  }

  // ----- three bytes as four groups of six bits

  function Q0(a: byte): sextet { a / 4 }
  function Q1(a: byte, b: byte): sextet { a % 4 * 16 + b / 16 }
  function Q2(b: byte, c: byte): sextet { b % 16 * 4 + c / 64 }
  function Q3(c: byte): sextet { c % 64 }

  function B0(v: sextet, w: sextet): byte { v * 4 + w / 16 }
  function B1(w: sextet, x: sextet): byte { w % 16 * 16 + x / 4 }
  function B2(x: sextet, y: sextet): byte { x % 4 * 64 + y }

  function Sextets(b: seq<byte>): seq<sextet> {
    if |b| == 0 then []
    else if |b| == 1 then [Q0(b[0]), Q1(b[0], 0)]
    else if |b| == 2 then [Q0(b[0]), Q1(b[0], b[1]), Q2(b[1], 0)]
    else [Q0(b[0]), Q1(b[0], b[1]), Q2(b[1], b[2]), Q3(b[2])] + Sextets(b[3..])
  }

  /** A lenient reading: bits left over at the end are dropped, whatever they are. */
  function Octets(v: seq<sextet>): Option<seq<byte>> {
    if |v| == 0 then Some([])
    else if |v| == 1 then None
    else if |v| == 2 then Some([B0(v[0], v[1])])
    else if |v| == 3 then Some([B0(v[0], v[1]), B1(v[1], v[2])])
    else
      var rest := Octets(v[4..]);
      if rest.None? then None
      else Some([B0(v[0], v[1]), B1(v[1], v[2]), B2(v[2], v[3])] + rest.value)
  }

  lemma FirstByte(a: byte, b: byte)
    ensures B0(Q0(a), Q1(a, b)) == a
  {
  }

  lemma SecondByte(a: byte, b: byte, c: byte)
    ensures B1(Q1(a, b), Q2(b, c)) == b
  {
    LowBits(a % 4, b / 16);
    HighBits(b % 16, c / 64);
  }

  lemma LowBits(p: int, q: int)
    requires 0 <= q < 16
    ensures (p * 16 + q) % 16 == q
  {
  }

  lemma HighBits(p: int, q: int)
    requires 0 <= q < 4
    ensures (p * 4 + q) / 4 == p
  {
  }

  lemma ThirdByte(b: byte, c: byte)
    ensures B2(Q2(b, c), Q3(c)) == c
  {
  }

  lemma OneGroup(a: byte, b: byte, c: byte, rest: seq<sextet>)
    requires Octets(rest).Some?
    ensures Octets([Q0(a), Q1(a, b), Q2(b, c), Q3(c)] + rest) == Some([a, b, c] + Octets(rest).value)
  {
    FirstByte(a, b);
    SecondByte(a, b, c);
    ThirdByte(b, c);
    assert ([Q0(a), Q1(a, b), Q2(b, c), Q3(c)] + rest)[4..] == rest;
  }

  lemma {:induction false} OctetsOfSextets(b: seq<byte>)
    ensures Octets(Sextets(b)) == Some(b)
    ensures |Sextets(b)| == (4 * |b| + 2) / 3
    decreases |b|
  {
    if |b| == 1 {
      FirstByte(b[0], 0);
      assert b == [b[0]];
    } else if |b| == 2 {
      FirstByte(b[0], b[1]);
      SecondByte(b[0], b[1], 0);
      assert b == [b[0], b[1]];
    } else if |b| >= 3 {
      OctetsOfSextets(b[3..]);
      OneGroup(b[0], b[1], b[2], Sextets(b[3..]));
      assert (4 * (|b| - 3) + 2) / 3 + 4 == (4 * |b| + 2) / 3;
      assert b == [b[0], b[1], b[2]] + b[3..];
    }
  }

  // ----- the encoding

  function Encode(b: seq<byte>): string {
    Letters(Sextets(b))
  }

  function Decode(s: string): Option<seq<byte>> {
    var v := Values(s);
    if v.None? then None else Octets(v.value)
  }

  /** Decoding undoes encoding, for every sequence of bytes; four characters stand for three bytes. */
  lemma DecodeEncode(b: seq<byte>)
    ensures Decode(Encode(b)) == Some(b)
    ensures |Encode(b)| == (4 * |b| + 2) / 3
    ensures forall i :: 0 <= i < |Encode(b)| ==> (Encode(b)[i] as int) < 128
  {
    OctetsOfSextets(b);
    ValuesOfLetters(Sextets(b));
  }
}
