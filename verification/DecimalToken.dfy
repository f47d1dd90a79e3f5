/** Reading one numeric token of Turkish text: which separator is the decimal one is decided by what
    the token holds, the currency, and the lengths of its groups. */
module DecimalToken {
  import opened Wrappers
  import opened Digits

  datatype Scale = NoScale | Bin | Milyon | Milyar

  /** A decimal number: coefficient times ten to the exponent. */
  datatype Decimal = Decimal(coefficient: nat, exponent: int)

  datatype TokenError =
    | NegativeValue | InvalidToken | InvalidCommaGrouping | InvalidDotGrouping
    | TryDecimalsUseComma | InvalidThousands | InvalidDecimal

  const PRECISION := 28

  // ----- strings

  predicate IsSpace(c: char) {
    var n := c as int;
    9 <= n <= 13 || 28 <= n <= 32 || n == 0x85 || n == 0xA0 || n == 0x1680 || 0x2000 <= n <= 0x200A
    || n == 0x2028 || n == 0x2029 || n == 0x202F || n == 0x205F || n == 0x3000
  }

  function Compact(s: string): string {
    if s == "" then "" else (if IsSpace(s[0]) then "" else [s[0]]) + Compact(s[1..])
  }

  function CountOf(s: string, c: char): (n: nat)
    ensures n > 0 <==> c in s
  {
    if s == "" then 0 else (if s[0] == c then 1 else 0) + CountOf(s[1..], c)
  }

  function Remove(s: string, c: char): string {
    if s == "" then "" else (if s[0] == c then "" else [s[0]]) + Remove(s[1..], c)
  }

  function Split(s: string, c: char): (groups: seq<string>)
    ensures groups != []
  {
    if s == "" then [""]
    else
      var rest := Split(s[1..], c);
      if s[0] == c then [""] + rest else [[s[0]] + rest[0]] + rest[1..]
  }

  function Join(groups: seq<string>): string {
    if groups == [] then "" else groups[0] + Join(groups[1..])
  }

  /** The index of the last occurrence, or -1. */
  function LastIndex(s: string, c: char): (i: int)
    ensures -1 <= i < |s|
    ensures i >= 0 ==> s[i] == c
    ensures forall j :: i < j < |s| ==> s[j] != c
  {
    if s == "" then -1
    else if s[|s| - 1] == c then |s| - 1
    else LastIndex(s[..|s| - 1], c)
  }

  predicate GroupsOfThree(groups: seq<string>) {
    forall i :: 1 <= i < |groups| ==> |groups[i]| == 3
  }

  // ----- numbers

  /** How many decimal digits a number has; zero has none. */
  function Width(n: nat): nat {
    if n == 0 then 0 else 1 + Width(n / 10)
  }

  lemma QuotientIsNat(c: nat, p: nat)
    requires p > 0
    ensures c / p >= 0
  {
  }

  /** Dropping digits with ties to the even neighbour. */
  function RoundHalfEven(c: nat, drop: nat): nat {
    var p := Pow10(drop);
    QuotientIsNat(c, p);
    var q, r := c / p, c % p;
    if 2 * r > p || (2 * r == p && q % 2 == 1) then q + 1 else q
  }

  /** What an arithmetic context of so many significant digits keeps of an exact product. */
  function Rounded(c: nat, exponent: int, precision: nat): Decimal {
    if Width(c) <= precision then Decimal(c, exponent)
    else
      var drop := Width(c) - precision;
      var q := RoundHalfEven(c, drop);
      if Width(q) <= precision then Decimal(q, exponent + drop) else Decimal(q / 10, exponent + drop + 1)
  }

  function Scaled(c: nat, scale: Scale): (r: nat) {
    match scale
    case NoScale => c
    case Bin => c * 1_000
    case Milyon => c * 1_000_000
    case Milyar => c * 1_000_000_000
  }

  /** The number constructor: digits with at most one point, and at least one digit. */
  function ReadDecimal(s: string): Option<Decimal> {
    var digits := Remove(s, '.');
    if CountOf(s, '.') <= 1 && AllDigits(digits) && digits != "" then
      Some(Decimal(DigitsValue(digits), if CountOf(s, '.') == 0 then 0 else LastIndex(s, '.') + 1 - |s|))
    else None
  }

  // ----- the parser

  predicate Numeric(s: string) {
    s != "" && IsDigit(s[0]) && forall i :: 0 <= i < |s| ==> IsDigit(s[i]) || s[i] == '.' || s[i] == ','
  }

  function Unsigned(token: string): string {
    var compact := Compact(token);
    if compact != "" && compact[0] == '+' then compact[1..] else compact
  }

  /** Which separator, if any, is the decimal one. */
  function Separator(s: string, currency: Option<string>): Result<Option<char>, TokenError> {
    var commas, dots := CountOf(s, ','), CountOf(s, '.');
    if commas > 0 && dots > 0 then
      Success(Some(if LastIndex(s, ',') > LastIndex(s, '.') then ',' else '.'))
    else if commas > 1 then
      if GroupsOfThree(Split(s, ',')) then Success(None) else Failure(InvalidCommaGrouping)
    else if dots > 1 then
      if GroupsOfThree(Split(s, '.')) then Success(None) else Failure(InvalidDotGrouping)
    else if commas == 1 then Success(Some(','))
    else if dots == 1 then
      if |s| - 1 - LastIndex(s, '.') == 3 then Success(None)
      else if currency == Some("TRY") then Failure(TryDecimalsUseComma)
      else Success(Some('.'))
    else Success(None)
  }

  /** The digits with at most one point that the token is rewritten to. */
  function Canonical(s: string, separator: Option<char>): Result<string, TokenError> {
    if separator.None? then Success(Remove(Remove(s, ','), '.'))
    else
      var grouping := if separator.value == ',' then '.' else ',';
      var at := LastIndex(s, separator.value);
      if at < 0 then Failure(InvalidDecimal)
      else
        var groups := Split(s[..at], grouping);
        if |groups| > 1 && !GroupsOfThree(groups) then Failure(InvalidThousands)
        else Success(Join(groups) + "." + s[at + 1..])
  }

  function ParseCompact(s: string, currency: Option<string>, scale: Scale): Result<Decimal, TokenError> {
    if !Numeric(s) then Failure(InvalidToken)
    else
      match Separator(s, currency)
      case Failure(e) => Failure(e)
      case Success(separator) =>
        match Canonical(s, separator)
        case Failure(e) => Failure(e)
        case Success(canonical) =>
          var value := ReadDecimal(canonical);
          if value.None? then Failure(InvalidDecimal)
          else Success(Rounded(Scaled(value.value.coefficient, scale), value.value.exponent, PRECISION))
  }

  function Parse(token: string, currency: Option<string>, scale: Scale): Result<Decimal, TokenError> {
    var compact := Compact(token);
    if compact != "" && compact[0] == '-' then Failure(NegativeValue)
    else ParseCompact(Unsigned(token), currency, scale)
  }

  // ----- what is accepted, and what it means

  /** The separator that comes last, when both occur. */
  function Last(s: string): char {
    if LastIndex(s, ',') > LastIndex(s, '.') then ',' else '.'
  }

  function Other(c: char): char {
    if c == ',' then '.' else ','
  }

  /** The tokens the parser accepts: every grouping is in threes, a decimal separator occurs once,
      and a single dot before anything but three digits is a decimal point outside the lira only. */
  predicate Acceptable(s: string, currency: Option<string>) {
    var commas, dots := CountOf(s, ','), CountOf(s, '.');
    && Numeric(s)
    && (commas > 0 && dots > 0 ==>
          CountOf(s, Last(s)) == 1 && GroupsOfThree(Split(s[..LastIndex(s, Last(s))], Other(Last(s)))))
    && (commas > 1 && dots == 0 ==> GroupsOfThree(Split(s, ',')))
    && (dots > 1 && commas == 0 ==> GroupsOfThree(Split(s, '.')))
    && (dots == 1 && commas == 0 ==> |s| - 1 - LastIndex(s, '.') == 3 || currency != Some("TRY"))
  }

  /** How many of an acceptable token's digits come after its decimal separator. */
  function Places(s: string): nat {
    var commas, dots := CountOf(s, ','), CountOf(s, '.');
    if commas > 0 && dots > 0 then |s| - 1 - LastIndex(s, Last(s))
    else if commas == 1 then |s| - 1 - LastIndex(s, ',')
    else if dots == 1 && |s| - 1 - LastIndex(s, '.') != 3 then |s| - 1 - LastIndex(s, '.')
    else 0
  }

  /** The digits of a token, in order, and nothing else. */
  function DigitsOf(s: string): string {
    Remove(Remove(s, ','), '.')
  }
}
