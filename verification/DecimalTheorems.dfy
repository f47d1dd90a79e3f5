/** What the token parser accepts, what it makes of an accepted token, and that it reads back what a
    Turkish rendering writes. */
module DecimalTheorems {
  import opened Wrappers
  import opened Digits
  import opened DecimalToken

  // ----- removing, splitting and joining

  lemma {:induction false} RemoveConcat(a: string, b: string, c: char)
    ensures Remove(a + b, c) == Remove(a, c) + Remove(b, c)
  {
    if a == "" {
      assert a + b == b;
    } else {
      assert (a + b)[1..] == a[1..] + b;
      RemoveConcat(a[1..], b, c);
    }
  }

  lemma {:induction false} CountConcat(a: string, b: string, c: char)
    ensures CountOf(a + b, c) == CountOf(a, c) + CountOf(b, c)
  {
    if a == "" {
      assert a + b == b;
    } else {
      assert (a + b)[1..] == a[1..] + b;
      CountConcat(a[1..], b, c);
    }
  }

  lemma AcrossSame(a: string, c: char, b: string)
    ensures Remove(a + [c] + b, c) == Remove(a, c) + Remove(b, c)
  {
    RemoveConcat(a + [c], b, c);
    RemoveConcat(a, [c], c);
    assert [c][1..] == "";
    assert Remove(a, c) + "" == Remove(a, c);
  }

  lemma AcrossOther(a: string, c: char, b: string, d: char)
    requires c != d
    ensures Remove(a + [c] + b, d) == Remove(a, d) + [c] + Remove(b, d)
  {
    RemoveConcat(a + [c], b, d);
    RemoveConcat(a, [c], d);
    assert [c][1..] == "";
    assert [c] + "" == [c];
  }

  lemma CountAcross(a: string, c: char, b: string, d: char)
    ensures CountOf(a + [c] + b, d) == CountOf(a, d) + (if c == d then 1 else 0) + CountOf(b, d)
  {
    CountConcat(a + [c], b, d);
    CountConcat(a, [c], d);
    assert [c][1..] == "";
  }

  lemma {:induction false} RemoveAbsent(s: string, c: char)
    requires c !in s
    ensures Remove(s, c) == s
  {
    if s != "" {
      RemoveAbsent(s[1..], c);
      assert s == [s[0]] + s[1..];
    }
  }

  lemma {:induction false} RemoveMembers(s: string, c: char)
    ensures forall d :: d in Remove(s, c) <==> d in s && d != c
  {
    if s != "" {
      RemoveMembers(s[1..], c);
    }
  }

  lemma {:induction false} JoinSplit(s: string, c: char)
    ensures Join(Split(s, c)) == Remove(s, c)
  {
    if s != "" {
      JoinSplit(s[1..], c);
      var rest := Split(s[1..], c);
      if s[0] == c {
        assert ([""] + rest)[1..] == rest;
      } else {
        assert ([[s[0]] + rest[0]] + rest[1..])[1..] == rest[1..];
      }
    }
  }

  lemma {:induction false} SplitAbsent(s: string, c: char)
    requires c !in s
    ensures Split(s, c) == [s]
  {
    if s != "" {
      SplitAbsent(s[1..], c);
      assert s == [s[0]] + s[1..];
    }
  }

  lemma {:induction false} SplitSize(s: string, c: char)
    ensures |Split(s, c)| == CountOf(s, c) + 1
  {
    if s != "" {
      SplitSize(s[1..], c);
    }
  }

  /** Splitting at a separator that is written between two parts splits the parts. */
  lemma {:induction false} SplitConcat(a: string, c: char, b: string)
    ensures Split(a + [c] + b, c) == Split(a, c) + Split(b, c)
  {
    var s := a + [c] + b;
    if a == "" {
      assert s == [c] + b && s[1..] == b;
    } else {
      assert s[1..] == a[1..] + [c] + b && s[0] == a[0];
      SplitConcat(a[1..], c, b);
      SplitStep(a[0], Split(a[1..], c), Split(b, c), c);
    }
  }

  lemma SplitStep(x: char, rest: seq<string>, more: seq<string>, c: char)
    requires rest != []
    ensures [""] + (rest + more) == ([""] + rest) + more
    ensures [[x] + (rest + more)[0]] + (rest + more)[1..] == ([[x] + rest[0]] + rest[1..]) + more
  {
  }

  lemma LastIndexUnique(s: string, c: char, i: int)
    requires -1 <= i < |s| && (i >= 0 ==> s[i] == c)
    requires forall j :: i < j < |s| ==> s[j] != c
    ensures LastIndex(s, c) == i
  {
  }

  lemma TailLacks(head: string, sep: char, tail: string)
    requires sep !in tail
    ensures forall j :: |head| < j < |head + [sep] + tail| ==> (head + [sep] + tail)[j] != sep
  {
    forall j | |head| < j < |head + [sep] + tail|
      ensures (head + [sep] + tail)[j] != sep
    {
      assert (head + [sep] + tail)[j] == tail[j - |head| - 1];
      assert tail[j - |head| - 1] in tail;
    }
  }

  /** A separator that is not in the tail stands last where it is written. */
  lemma LastIndexAt(head: string, sep: char, tail: string)
    requires sep !in tail
    ensures LastIndex(head + [sep] + tail, sep) == |head|
  {
    var s := head + [sep] + tail;
    TailLacks(head, sep, tail);
    assert s[|head|] == sep;
    LastIndexUnique(s, sep, |head|);
  }

  lemma LastIndexInHead(head: string, tail: string, c: char)
    requires c !in tail
    ensures LastIndex(head + tail, c) < |head|
  {
    var s := head + tail;
    forall j | |head| <= j < |s|
      ensures s[j] != c
    {
      assert s[j] == tail[j - |head|];
    }
  }

  // ----- acceptance

  lemma NumericAfterRemove(s: string)
    requires Numeric(s)
    ensures AllDigits(DigitsOf(s)) && DigitsOf(s) != ""
  {
    RemoveMembers(s, ',');
    RemoveMembers(Remove(s, ','), '.');
    assert s[0] in DigitsOf(s);
    forall i | 0 <= i < |DigitsOf(s)|
      ensures IsDigit(DigitsOf(s)[i])
    {
      assert DigitsOf(s)[i] in s;
    }
  }

  /** Without a decimal separator the token is read as all of its digits. */
  lemma WholeReads(s: string)
    requires Numeric(s)
    ensures AllDigits(DigitsOf(s))
    ensures ReadDecimal(DigitsOf(s)) == Some(Decimal(DigitsValue(DigitsOf(s)), 0))
  {
    NumericAfterRemove(s);
    var d := DigitsOf(s);
    assert '.' !in d;
    RemoveAbsent(d, '.');
  }

  /** What surrounds the last occurrence of a separator that no other separator follows. */
  lemma AroundLast(s: string, sep: char)
    requires Numeric(s) && (sep == ',' || sep == '.') && CountOf(s, sep) > 0
    requires CountOf(s, Other(sep)) > 0 ==> LastIndex(s, Other(sep)) < LastIndex(s, sep)
    ensures 0 <= LastIndex(s, sep) < |s|
    ensures var at := LastIndex(s, sep);
            s == s[..at] + [sep] + s[at + 1..] && AllDigits(s[at + 1..])
  {
    DigitsAfter(s, LastIndex(s, sep), s[LastIndex(s, sep) + 1..]);
  }

  lemma DigitsAfter(s: string, at: nat, after: string)
    requires Numeric(s) && at < |s| && after == s[at + 1..]
    requires forall i :: at < i < |s| ==> s[i] != ',' && s[i] != '.'
    ensures AllDigits(after)
  {
    forall i | 0 <= i < |after|
      ensures IsDigit(after[i])
    {
      assert after[i] == s[at + 1 + i];
    }
  }

  lemma CountsAround(before: string, sep: char, after: string)
    requires (sep == ',' || sep == '.') && AllDigits(after)
    ensures CountOf(before + [sep] + after, sep) == CountOf(before, sep) + 1
    ensures CountOf(before + [sep] + after, Other(sep)) == CountOf(before, Other(sep))
  {
    CountAcross(before, sep, after, sep);
    CountAcross(before, sep, after, Other(sep));
  }

  /** The rewriting at a decimal separator leaves a readable number exactly when that separator
      occurs once, and then it holds all digits of the token. */
  lemma CanonicalReads(s: string, before: string, sep: char, after: string)
    requires Numeric(s) && (sep == ',' || sep == '.') && AllDigits(DigitsOf(s))
    requires s == before + [sep] + after && AllDigits(after)
    ensures ReadDecimal(Join(Split(before, Other(sep))) + "." + after)
         == if CountOf(before, sep) == 0 then Some(Decimal(DigitsValue(DigitsOf(s)), -|after|)) else None
  {
    JoinSplit(before, Other(sep));
    ReadsAround(s, before, sep, after);
  }

  lemma ReadsAround(s: string, before: string, sep: char, after: string)
    requires Numeric(s) && (sep == ',' || sep == '.') && AllDigits(DigitsOf(s))
    requires s == before + [sep] + after && AllDigits(after)
    ensures ReadDecimal(Remove(before, Other(sep)) + "." + after)
         == if CountOf(before, sep) == 0 then Some(Decimal(DigitsValue(DigitsOf(s)), -|after|)) else None
  {
    if CountOf(before, sep) == 0 {
      ReadsOnce(s, before, sep, after);
    } else {
      RemoveMembers(before, Other(sep));
      TwiceFails(Remove(before, Other(sep)), after, sep);
    }
  }

  lemma ReadsOnce(s: string, before: string, sep: char, after: string)
    requires Numeric(s) && (sep == ',' || sep == '.') && AllDigits(DigitsOf(s))
    requires s == before + [sep] + after && CountOf(before, sep) == 0 && AllDigits(after)
    ensures ReadDecimal(Remove(before, Other(sep)) + "." + after) == Some(Decimal(DigitsValue(DigitsOf(s)), -|after|))
  {
    DigitsAround(before, sep, after);
    RemoveMembers(before, Other(sep));
    OnceReads(Remove(before, Other(sep)), after);
  }

  /** A second decimal separator survives the rewriting and makes the number unreadable. */
  lemma TwiceFails(kept: string, after: string, sep: char)
    requires sep in kept && (sep == ',' || sep == '.')
    ensures ReadDecimal(kept + "." + after).None?
  {
    var canonical := kept + ['.'] + after;
    CountAcross(kept, '.', after, '.');
    if sep == ',' {
      RemoveMembers(canonical, '.');
      assert ',' in canonical;
      assert ',' in Remove(canonical, '.');
    }
  }

  lemma OnceReads(kept: string, after: string)
    requires '.' !in kept && '.' !in after
    requires AllDigits(kept + after) && kept + after != ""
    ensures ReadDecimal(kept + "." + after) == Some(Decimal(DigitsValue(kept + after), -|after|))
  {
    OncePoint(kept, after, '.');
    RemoveOnce(kept, after, '.');
    LastIndexAt(kept, '.', after);
  }

  lemma OncePoint(kept: string, after: string, c: char)
    requires c !in kept && c !in after
    ensures CountOf(kept + [c] + after, c) == 1
  {
    CountAcross(kept, c, after, c);
  }

  lemma RemoveOnce(kept: string, after: string, c: char)
    requires c !in kept && c !in after
    ensures Remove(kept + [c] + after, c) == kept + after
  {
    AcrossSame(kept, c, after);
    RemoveAbsent(kept, c);
    RemoveAbsent(after, c);
  }

  lemma DigitsAround(before: string, sep: char, after: string)
    requires sep == ',' || sep == '.'
    requires sep !in before && '.' !in after && ',' !in after
    ensures DigitsOf(before + [sep] + after) == Remove(before, Other(sep)) + after
  {
    if sep == ',' {
      RemoveOnce(before, after, ',');
      RemoveConcat(before, after, '.');
      RemoveAbsent(after, '.');
    } else {
      AcrossOther(before, '.', after, ',');
      RemoveAbsent(after, ',');
      RemoveMembers(before, ',');
      RemoveOnce(Remove(before, ','), after, '.');
    }
  }

  /** With a decimal separator, rewriting succeeds when the groups before it are in threes. */
  lemma WithSeparator(s: string, sep: char)
    requires Numeric(s) && (sep == ',' || sep == '.') && CountOf(s, sep) > 0
    requires CountOf(s, Other(sep)) > 0 ==> LastIndex(s, Other(sep)) < LastIndex(s, sep)
    ensures AllDigits(DigitsOf(s))
    ensures var at := LastIndex(s, sep);
            var canonical := Canonical(s, Some(sep));
            && (canonical.Success? <==> CountOf(s, Other(sep)) == 0 || GroupsOfThree(Split(s[..at], Other(sep))))
            && (canonical.Success? ==>
                  ReadDecimal(canonical.value)
                  == if CountOf(s, sep) == 1 then Some(Decimal(DigitsValue(DigitsOf(s)), at + 1 - |s|)) else None)
  {
    var at := LastIndex(s, sep);
    AroundLast(s, sep);
    NumericAfterRemove(s);
    CountsAround(s[..at], sep, s[at + 1..]);
    CanonicalReads(s, s[..at], sep, s[at + 1..]);
    SplitSize(s[..at], Other(sep));
  }

  /** What the choice of separator says about acceptance. */
  lemma SeparatorDecides(s: string, currency: Option<string>)
    requires Numeric(s)
    ensures var r := Separator(s, currency);
            && (r.Failure? ==> !Acceptable(s, currency))
            && (r == Success(None) ==> Acceptable(s, currency) && Places(s) == 0)
            && (r.Success? && r.value.Some? ==>
                  var sep := r.value.value;
                  && (sep == ',' || sep == '.') && CountOf(s, sep) > 0
                  && (CountOf(s, Other(sep)) > 0 ==> LastIndex(s, Other(sep)) < LastIndex(s, sep))
                  && Places(s) == |s| - 1 - LastIndex(s, sep)
                  && (Acceptable(s, currency) <==>
                        CountOf(s, sep) == 1
                        && (CountOf(s, Other(sep)) == 0 || GroupsOfThree(Split(s[..LastIndex(s, sep)], Other(sep))))))
  {
  }

  /** What the parser makes of a token, with its digits and places. */
  ghost predicate Outcome(s: string, currency: Option<string>, scale: Scale) {
    && (ParseCompact(s, currency, scale).Success? <==> Acceptable(s, currency))
    && (Acceptable(s, currency) ==>
          && AllDigits(DigitsOf(s))
          && ParseCompact(s, currency, scale) == Success(TokenValue(s, scale)))
  }

  /** All the digits of a token, scaled, with its places. */
  function TokenValue(s: string, scale: Scale): Decimal
    requires AllDigits(DigitsOf(s))
  {
    Rounded(Scaled(DigitsValue(DigitsOf(s)), scale), -(Places(s) as int), PRECISION)
  }

  lemma WholeOutcome(s: string, currency: Option<string>, scale: Scale)
    requires Numeric(s) && Separator(s, currency) == Success(None)
    ensures Outcome(s, currency, scale)
  {
    SeparatorDecides(s, currency);
    WholeReads(s);
  }

  lemma SeparatedOutcome(s: string, currency: Option<string>, scale: Scale, sep: char)
    requires Numeric(s) && Separator(s, currency) == Success(Some(sep))
    ensures Outcome(s, currency, scale)
  {
    SeparatorDecides(s, currency);
    WithSeparator(s, sep);
  }

  lemma RefusedOutcome(s: string, currency: Option<string>, scale: Scale)
    requires !Numeric(s) || Separator(s, currency).Failure?
    ensures Outcome(s, currency, scale)
  {
    if Numeric(s) {
      SeparatorDecides(s, currency);
    }
  }

  lemma TokenOutcomes(s: string, currency: Option<string>, scale: Scale)
    ensures ParseCompact(s, currency, scale).Success? <==> Acceptable(s, currency)
    ensures Acceptable(s, currency) ==>
              AllDigits(DigitsOf(s)) && ParseCompact(s, currency, scale) == Success(TokenValue(s, scale))
  {
    if !Numeric(s) || Separator(s, currency).Failure? {
      RefusedOutcome(s, currency, scale);
    } else if Separator(s, currency).value.None? {
      WholeOutcome(s, currency, scale);
    } else {
      SeparatedOutcome(s, currency, scale, Separator(s, currency).value.value);
    }
  }

  lemma PowersOfTen()
    ensures Pow10(0) == 1 && Pow10(3) == 1_000 && Pow10(6) == 1_000_000 && Pow10(9) == 1_000_000_000
  {
    assert Pow10(4) == 10_000;
    assert Pow10(7) == 10 * Pow10(6);
    assert Pow10(8) == 10 * Pow10(7);
  }

  /** A scale word appends zeros: three for a thousand, six for a million, nine for a milliard. */
  lemma ScaleAppendsZeros(c: nat, scale: Scale)
    ensures Scaled(c, scale)
         == c * Pow10(match scale case NoScale => 0 case Bin => 3 case Milyon => 6 case Milyar => 9)
  {
    PowersOfTen();
  }

  /** The parser accepts exactly the acceptable tokens, and the value of one is all of its digits in
      order, with the zeros of the scale word after them and the decimal separator deciding only the
      power of ten. */
  lemma AcceptedTokens(s: string, currency: Option<string>, scale: Scale)
    ensures ParseCompact(s, currency, scale).Success? <==> Acceptable(s, currency)
    ensures Acceptable(s, currency) ==>
              && AllDigits(DigitsOf(s))
              && var c := DigitsValue(DigitsOf(s))
                          * Pow10(match scale case NoScale => 0 case Bin => 3 case Milyon => 6 case Milyar => 9);
                 ParseCompact(s, currency, scale) == Success(Rounded(c, -(Places(s) as int), PRECISION))
  {
    TokenOutcomes(s, currency, scale);
    if Acceptable(s, currency) {
      ScaleAppendsZeros(DigitsValue(DigitsOf(s)), scale);
    }
  }

  /** Which refusal a token gets whose separators decide: groups not in threes, and then a decimal
      separator that occurs again. */
  lemma SeparatedRefusal(s: string, currency: Option<string>, scale: Scale, sep: char)
    requires Numeric(s) && Separator(s, currency) == Success(Some(sep))
    ensures ParseCompact(s, currency, scale) == Failure(InvalidThousands) <==>
              CountOf(s, Other(sep)) > 0 && !GroupsOfThree(Split(s[..LastIndex(s, sep)], Other(sep)))
    ensures ParseCompact(s, currency, scale) == Failure(InvalidDecimal) <==>
              && CountOf(s, sep) > 1
              && (CountOf(s, Other(sep)) > 0 ==> GroupsOfThree(Split(s[..LastIndex(s, sep)], Other(sep))))
    ensures ParseCompact(s, currency, scale).Failure? ==>
              ParseCompact(s, currency, scale).error == InvalidThousands || ParseCompact(s, currency, scale).error == InvalidDecimal
  {
    SeparatorDecides(s, currency);
    WithSeparator(s, sep);
    AroundLast(s, sep);
  }

  lemma SeparatorRefusal(s: string, currency: Option<string>)
    requires Numeric(s)
    ensures Separator(s, currency) == Failure(InvalidCommaGrouping) <==>
              CountOf(s, '.') == 0 && CountOf(s, ',') > 1 && !GroupsOfThree(Split(s, ','))
    ensures Separator(s, currency) == Failure(InvalidDotGrouping) <==>
              CountOf(s, ',') == 0 && CountOf(s, '.') > 1 && !GroupsOfThree(Split(s, '.'))
    ensures Separator(s, currency) == Failure(TryDecimalsUseComma) <==>
              CountOf(s, ',') == 0 && CountOf(s, '.') == 1 && |s| - 1 - LastIndex(s, '.') != 3 && currency == Some("TRY")
    ensures Separator(s, currency).Failure? ==>
              Separator(s, currency).error in {InvalidCommaGrouping, InvalidDotGrouping, TryDecimalsUseComma}
  {
  }

  /** Which refusal a compact token gets, and when: a character out of place; commas alone, or dots alone,
      not in threes; in lira amounts one dot before anything but three digits; with both, groups that are
      not in threes, and then a decimal separator that occurs again. */
  lemma RefusedExactly(s: string, currency: Option<string>, scale: Scale)
    ensures ParseCompact(s, currency, scale) == Failure(InvalidToken) <==> !Numeric(s)
    ensures ParseCompact(s, currency, scale) == Failure(InvalidCommaGrouping) <==>
              Numeric(s) && CountOf(s, '.') == 0 && CountOf(s, ',') > 1 && !GroupsOfThree(Split(s, ','))
    ensures ParseCompact(s, currency, scale) == Failure(InvalidDotGrouping) <==>
              Numeric(s) && CountOf(s, ',') == 0 && CountOf(s, '.') > 1 && !GroupsOfThree(Split(s, '.'))
    ensures ParseCompact(s, currency, scale) == Failure(TryDecimalsUseComma) <==>
              && Numeric(s) && CountOf(s, ',') == 0 && CountOf(s, '.') == 1
              && |s| - 1 - LastIndex(s, '.') != 3 && currency == Some("TRY")
    ensures ParseCompact(s, currency, scale) == Failure(InvalidThousands) <==>
              && Numeric(s) && CountOf(s, ',') > 0 && CountOf(s, '.') > 0
              && !GroupsOfThree(Split(s[..LastIndex(s, Last(s))], Other(Last(s))))
    ensures ParseCompact(s, currency, scale) == Failure(InvalidDecimal) <==>
              && Numeric(s) && CountOf(s, ',') > 0 && CountOf(s, '.') > 0 && CountOf(s, Last(s)) > 1
              && GroupsOfThree(Split(s[..LastIndex(s, Last(s))], Other(Last(s))))
  {
    if Numeric(s) {
      SeparatorRefusal(s, currency);
      var r := Separator(s, currency);
      if r == Success(None) {
        WholeReads(s);
      } else if r.Success? {
        SeparatedRefusal(s, currency, scale, r.value.value);
      }
    }
  }

  /** One plus in front is dropped, and only one. */
  lemma PlusIsDropped(token: string, rest: string, currency: Option<string>, scale: Scale)
    requires Compact(token) == "+" + rest
    ensures Parse(token, currency, scale) == ParseCompact(rest, currency, scale)
    ensures rest != "" && (rest[0] == '+' || rest[0] == '-') ==> Parse(token, currency, scale) == Failure(InvalidToken)
  {
  }

  /** The whitespace that is dropped: the six ASCII characters, the four separators, and what Unicode adds. */
  lemma SpacesExactly(c: char)
    ensures IsSpace(c) <==>
              || c as int in {9, 10, 11, 12, 13, 32} || c as int in {28, 29, 30, 31}
              || c as int in {0x85, 0xA0, 0x1680, 0x2028, 0x2029, 0x202F, 0x205F, 0x3000}
              || 0x2000 <= c as int < 0x200B
  {
  }

  /** A minus in front is refused as a negative value, whatever follows it; nothing else is. */
  lemma NegativeExactly(token: string, currency: Option<string>, scale: Scale)
    ensures Parse(token, currency, scale) == Failure(NegativeValue) <==> Compact(token) != "" && Compact(token)[0] == '-'
  {
    if ParseCompact(Unsigned(token), currency, scale).Failure? && Numeric(Unsigned(token)) {
      var s := Unsigned(token);
      SeparatorRefusal(s, currency);
      if Separator(s, currency).Success? && Separator(s, currency).value.Some? {
        SeparatedRefusal(s, currency, scale, Separator(s, currency).value.value);
      } else if Separator(s, currency).Success? {
        WholeReads(s);
      }
    }
  }

  /** A token is accepted exactly when what is left of it, without whitespace and a plus sign, is. */
  lemma AcceptedWithSpaces(token: string, currency: Option<string>, scale: Scale)
    ensures Parse(token, currency, scale).Success? <==> Acceptable(Unsigned(token), currency)
    ensures Acceptable(Unsigned(token), currency) ==>
              Parse(token, currency, scale) == ParseCompact(Unsigned(token), currency, scale)
  {
    TokenOutcomes(Unsigned(token), currency, scale);
  }

  lemma {:induction false} CompactKeeps(s: string)
    requires forall i :: 0 <= i < |s| ==> !IsSpace(s[i])
    ensures Compact(s) == s
  {
    if s != "" {
      CompactKeeps(s[1..]);
      assert s == [s[0]] + s[1..];
    }
  }

  lemma ParseNumeric(s: string, currency: Option<string>, scale: Scale)
    requires Numeric(s)
    ensures Parse(s, currency, scale) == ParseCompact(s, currency, scale)
  {
    CompactKeeps(s);
  }

  // ----- rounding

  lemma {:induction false} WidthBounds(n: nat)
    ensures n < Pow10(Width(n))
    ensures n > 0 ==> Pow10(Width(n) - 1) <= n
  {
    if n > 0 {
      WidthBounds(n / 10);
      if n / 10 > 0 {
        assert Pow10(Width(n) - 1) == 10 * Pow10(Width(n) - 2);
      }
    }
  }

  lemma {:induction false} WidthUnique(n: nat, w: nat)
    requires n < Pow10(w)
    ensures Width(n) <= w
  {
    if n > 0 {
      WidthUnique(n / 10, w - 1);
    }
  }

  lemma {:induction false} Pow10Add(a: nat, b: nat)
    ensures Pow10(a + b) == Pow10(a) * Pow10(b)
  {
    if a > 0 {
      Pow10Add(a - 1, b);
      assert 10 * (Pow10(a - 1) * Pow10(b)) == (10 * Pow10(a - 1)) * Pow10(b);
    }
  }

  /** Two decimals of the same value, compared at the lower exponent. */
  predicate SameValue(a: Decimal, c: nat, exponent: int)
    requires a.exponent >= exponent
  {
    a.coefficient * Pow10(a.exponent - exponent) == c
  }

  /** The context keeps a product exactly if and only if nothing but zeros stands past its last
      significant digit. */
  lemma RoundedExactly(c: nat, exponent: int, precision: nat)
    requires precision > 0
    ensures Rounded(c, exponent, precision).exponent >= exponent
    ensures SameValue(Rounded(c, exponent, precision), c, exponent) <==>
              Width(c) <= precision || c % Pow10(Width(c) - precision) == 0
  {
    assert Pow10(0) == 1;
    if Width(c) > precision {
      var drop := Width(c) - precision;
      var q := RoundHalfEven(c, drop);
      if Width(q) <= precision {
        RoundedIsMultiple(c, drop);
      } else {
        CarryIsInexact(c, drop, precision);
      }
    }
  }

  lemma DivideBack(c: nat, p: nat)
    requires p > 0
    ensures c == (c / p) * p + c % p && 0 <= c % p < p
  {
  }

  lemma RoundedIsMultiple(c: nat, drop: nat)
    ensures RoundHalfEven(c, drop) * Pow10(drop) == c <==> c % Pow10(drop) == 0
  {
    var p := Pow10(drop);
    var q, r := c / p, c % p;
    DivideBack(c, p);
    assert (q + 1) * p == q * p + p;
  }

  /** The quotient before rounding has at most the kept digits. */
  lemma QuotientFits(c: nat, drop: nat, precision: nat)
    requires Width(c) == precision + drop
    ensures c / Pow10(drop) < Pow10(precision)
  {
    var p := Pow10(drop);
    WidthBounds(c);
    Pow10Add(precision, drop);
    QuotientBelow(c, p, Pow10(precision));
  }

  lemma QuotientBelow(c: nat, p: nat, b: nat)
    requires p > 0 && c < b * p
    ensures c / p < b
  {
    DivideBack(c, p);
    SmallerFactor(c / p, b, p);
  }

  /** A carry into one digit too many comes only from rounding up nines, so it never keeps the value. */
  lemma CarryIsInexact(c: nat, drop: nat, precision: nat)
    requires precision > 0 && Width(c) == precision + drop
    requires Width(RoundHalfEven(c, drop)) > precision
    ensures (RoundHalfEven(c, drop) / 10) * Pow10(drop + 1) != c
    ensures c % Pow10(drop) != 0
  {
    var p := Pow10(drop);
    var q := c / p;
    QuotientFits(c, drop, precision);
    WidthUnique(q, precision);
    if q + 1 < Pow10(precision) {
      WidthUnique(q + 1, precision);
    }
    assert RoundHalfEven(c, drop) == q + 1 == Pow10(precision);
    assert Pow10(precision) == 10 * Pow10(precision - 1);
    Pow10Add(precision - 1, drop + 1);
    assert (q + 1) / 10 == Pow10(precision - 1);
    WidthBounds(c);
  }

  lemma SmallerFactor(a: nat, b: nat, p: nat)
    requires p > 0 && a * p < b * p
    ensures a < b
  {
    assert a * p - b * p == (a - b) * p;
    assert a >= b ==> (a - b) * p >= 0;
  }

  // ----- Turkish rendering

  function Three(n: nat): string
    requires n < 1000
  {
    [DigitChar(n / 100), DigitChar(n / 10 % 10), DigitChar(n % 10)]
  }

  /** Thousands grouped by dots. */
  function Grouped(n: nat): string {
    if n < 1000 then Numeral(n) else Grouped(n / 1000) + "." + Three(n % 1000)
  }

  function Render(n: nat, fraction: string): string {
    if fraction == "" then Grouped(n) else Grouped(n) + "," + fraction
  }

  lemma ThreeReads(n: nat)
    requires n < 1000
    ensures AllDigits(Three(n)) && DigitsValue(Three(n)) == n
  {
    var s := Three(n);
    assert s[..2] == [s[0], s[1]] && s[..2][..1] == [s[0]] && s[..2][..1][..0] == "";
    assert DigitsValue(s[..2][..1]) == n / 100;
    assert DigitsValue(s[..2]) == 10 * (n / 100) + n / 10 % 10;
  }

  lemma {:induction false} ValueConcat(a: string, b: string)
    requires AllDigits(a) && AllDigits(b)
    ensures AllDigits(a + b)
    ensures DigitsValue(a + b) == DigitsValue(a) * Pow10(|b|) + DigitsValue(b)
  {
    if b == "" {
      assert a + b == a;
    } else {
      var init := b[..|b| - 1];
      ValueConcat(a, init);
      assert (a + b)[..|a + b| - 1] == a + init;
      assert DigitsValue(a) * (10 * Pow10(|init|)) == 10 * (DigitsValue(a) * Pow10(|init|));
    }
  }

  lemma {:induction false} GroupedReads(n: nat)
    ensures Numeric(Grouped(n)) && ',' !in Grouped(n)
    ensures AllDigits(Remove(Grouped(n), '.')) && DigitsValue(Remove(Grouped(n), '.')) == n
    ensures GroupsOfThree(Split(Grouped(n), '.'))
    ensures CountOf(Grouped(n), '.') > 0 ==> |Grouped(n)| - 1 - LastIndex(Grouped(n), '.') == 3
  {
    if n < 1000 {
      NumeralReads(n);
      assert '.' !in Numeral(n);
      RemoveAbsent(Numeral(n), '.');
      SplitAbsent(Numeral(n), '.');
    } else {
      var head, tail := Grouped(n / 1000), Three(n % 1000);
      GroupedReads(n / 1000);
      ThreeReads(n % 1000);
      assert Grouped(n) == head + ['.'] + tail;
      assert '.' !in tail && ',' !in tail;
      SplitConcat(head, '.', tail);
      SplitAbsent(tail, '.');
      GroupAppended(head, tail, n / 1000, n % 1000);
      LastIndexAt(head, '.', tail);
    }
  }

  lemma GroupAppended(head: string, tail: string, h: nat, t: nat)
    requires AllDigits(Remove(head, '.')) && DigitsValue(Remove(head, '.')) == h
    requires AllDigits(tail) && DigitsValue(tail) == t && |tail| == 3
    ensures AllDigits(Remove(head + ['.'] + tail, '.'))
    ensures DigitsValue(Remove(head + ['.'] + tail, '.')) == 1000 * h + t
  {
    AcrossSame(head, '.', tail);
    assert '.' !in tail;
    RemoveAbsent(tail, '.');
    ThreeMore(Remove(head, '.'), tail);
  }

  lemma ThreeMore(digits: string, tail: string)
    requires AllDigits(digits) && AllDigits(tail) && |tail| == 3
    ensures AllDigits(digits + tail)
    ensures DigitsValue(digits + tail) == 1000 * DigitsValue(digits) + DigitsValue(tail)
  {
    ValueConcat(digits, tail);
    PowThree();
  }

  lemma PowThree()
    ensures Pow10(3) == 1000
  {
  }

  /** All the digits a rendering writes, as one number. */
  function Coefficient(n: nat, fraction: string): nat
    requires AllDigits(fraction)
  {
    n * Pow10(|fraction|) + DigitsValue(fraction)
  }

  /** Reading back what the rendering writes, for every number, fraction, currency and scale: all
      the digits, scaled, with as many places as the fraction has. */
  lemma ParseUndoesRender(n: nat, fraction: string, currency: Option<string>, scale: Scale)
    requires AllDigits(fraction)
    ensures ParseCompact(Render(n, fraction), currency, scale) ==
              Success(Rounded(Scaled(Coefficient(n, fraction), scale), -(|fraction| as int), PRECISION))
  {
    if fraction == "" {
      WholeRendered(n, currency);
      TokenReads(Grouped(n), currency, scale, n, 0);
    } else {
      FractionRendered(n, fraction, currency);
      TokenReads(Grouped(n) + "," + fraction, currency, scale, Coefficient(n, fraction), |fraction|);
    }
  }

  lemma TokenReads(s: string, currency: Option<string>, scale: Scale, c: nat, places: nat)
    requires Acceptable(s, currency) && Places(s) == places
    requires AllDigits(DigitsOf(s)) && DigitsValue(DigitsOf(s)) == c
    ensures ParseCompact(s, currency, scale) == Success(Rounded(Scaled(c, scale), -(places as int), PRECISION))
  {
    TokenOutcomes(s, currency, scale);
    ValueIs(s, scale, c, places);
  }

  lemma ValueIs(s: string, scale: Scale, c: nat, places: nat)
    requires AllDigits(DigitsOf(s)) && DigitsValue(DigitsOf(s)) == c && Places(s) == places
    ensures TokenValue(s, scale) == Rounded(Scaled(c, scale), -(places as int), PRECISION)
  {
  }

  lemma RenderIsNumeric(n: nat, fraction: string)
    requires AllDigits(fraction)
    ensures Numeric(Render(n, fraction))
  {
    GroupedReads(n);
  }

  lemma WholeRendered(n: nat, currency: Option<string>)
    ensures Acceptable(Grouped(n), currency) && Places(Grouped(n)) == 0
    ensures AllDigits(DigitsOf(Grouped(n))) && DigitsValue(DigitsOf(Grouped(n))) == n == Coefficient(n, "")
  {
    GroupedReads(n);
    RemoveAbsent(Grouped(n), ',');
    assert Pow10(0) == 1;
  }

  lemma FractionRendered(n: nat, fraction: string, currency: Option<string>)
    requires AllDigits(fraction)
    ensures var s := Grouped(n) + "," + fraction;
            && Acceptable(s, currency) && Places(s) == |fraction|
            && AllDigits(DigitsOf(s)) && DigitsValue(DigitsOf(s)) == Coefficient(n, fraction)
  {
    GroupedReads(n);
    FractionAccepted(Grouped(n), fraction, currency);
    ValueConcat(Remove(Grouped(n), '.'), fraction);
  }

  lemma FractionAccepted(head: string, fraction: string, currency: Option<string>)
    requires Numeric(head) && ',' !in head && GroupsOfThree(Split(head, '.'))
    requires AllDigits(fraction)
    ensures Acceptable(head + "," + fraction, currency)
    ensures Places(head + "," + fraction) == |fraction|
    ensures DigitsOf(head + "," + fraction) == Remove(head, '.') + fraction
  {
    var s := head + [','] + fraction;
    assert '.' !in fraction && ',' !in fraction;
    OneComma(head, fraction);
    assert s[..|head|] == head;
    LastIndexInHead(head, [','] + fraction, '.');
    assert head + ([','] + fraction) == s;
    assert Last(s) == ',';
    DigitsAround(head, ',', fraction);
  }

  lemma OneComma(head: string, fraction: string)
    requires Numeric(head) && ',' !in head && AllDigits(fraction)
    ensures var s := head + [','] + fraction;
            && Numeric(s)
            && CountOf(s, ',') == 1 && LastIndex(s, ',') == |head|
            && CountOf(s, '.') == CountOf(head, '.')
  {
    CountAcross(head, ',', fraction, ',');
    CountAcross(head, ',', fraction, '.');
    LastIndexAt(head, ',', fraction);
  }

  /** The zeros a scale word appends: none without one, three for bin, six for milyon, nine for milyar. */
  lemma ZerosOf(n: nat, fraction: string, scale: Scale, zeros: nat, c: nat)
    requires AllDigits(fraction)
    requires zeros == match scale case NoScale => 0 case Bin => 3 case Milyon => 6 case Milyar => 9
    requires c == (n * Pow10(|fraction|) + DigitsValue(fraction)) * Pow10(zeros)
    ensures c == Scaled(Coefficient(n, fraction), scale)
  {
    ScaleAppendsZeros(Coefficient(n, fraction), scale);
  }

  /** The whole parser, on a rendering: all its digits, with the zeros of the scale word after them,
      as many places as the fraction has, rounded to the context. */
  lemma ParseRendered(n: nat, fraction: string, currency: Option<string>, scale: Scale, zeros: nat, text: string, c: nat)
    requires AllDigits(fraction) && text == Render(n, fraction)
    requires zeros == match scale case NoScale => 0 case Bin => 3 case Milyon => 6 case Milyar => 9
    requires c == (n * Pow10(|fraction|) + DigitsValue(fraction)) * Pow10(zeros)
    ensures Parse(text, currency, scale) == Success(Rounded(c, -(|fraction| as int), PRECISION))
  {
    ZerosOf(n, fraction, scale, zeros, c);
    ParsesScaled(n, fraction, currency, scale, text, c);
  }

  lemma ParsesScaled(n: nat, fraction: string, currency: Option<string>, scale: Scale, text: string, c: nat)
    requires AllDigits(fraction) && text == Render(n, fraction)
    requires c == Scaled(Coefficient(n, fraction), scale)
    ensures Parse(text, currency, scale) == Success(Rounded(c, -(|fraction| as int), PRECISION))
  {
    var scaled := RenderedReads(n, fraction, currency, scale);
  }

  lemma RenderedReads(n: nat, fraction: string, currency: Option<string>, scale: Scale) returns (c: nat)
    requires AllDigits(fraction)
    ensures c == Scaled(Coefficient(n, fraction), scale)
    ensures Parse(Render(n, fraction), currency, scale) == Success(Rounded(c, -(|fraction| as int), PRECISION))
  {
    c := Scaled(Coefficient(n, fraction), scale);
    ParseUndoesRender(n, fraction, currency, scale);
    RenderIsNumeric(n, fraction);
    ParseNumeric(Render(n, fraction), currency, scale);
  }

  /** The value survives exactly if and only if the scaled digits fit the context, or end in zeros
      where they do not. */
  lemma RenderRoundTripExact(
    n: nat, fraction: string, currency: Option<string>, scale: Scale, zeros: nat, text: string, r: Decimal, c: nat, exponent: int)
    requires AllDigits(fraction) && text == Render(n, fraction)
    requires zeros == match scale case NoScale => 0 case Bin => 3 case Milyon => 6 case Milyar => 9
    requires c == (n * Pow10(|fraction|) + DigitsValue(fraction)) * Pow10(zeros)
    requires exponent == -(|fraction| as int)
    requires Parse(text, currency, scale) == Success(r)
    ensures r.exponent >= exponent
    ensures SameValue(r, c, exponent) <==> Width(c) <= PRECISION || c % Pow10(Width(c) - PRECISION) == 0
  {
    ZerosOf(n, fraction, scale, zeros, c);
    ExactWhenScaled(n, fraction, currency, scale, text, r, c, exponent);
  }

  lemma ExactWhenScaled(
    n: nat, fraction: string, currency: Option<string>, scale: Scale, text: string, r: Decimal, c: nat, exponent: int)
    requires AllDigits(fraction) && text == Render(n, fraction)
    requires Parse(text, currency, scale) == Success(r)
    requires c == Scaled(Coefficient(n, fraction), scale) && exponent == -(|fraction| as int)
    ensures r.exponent >= exponent
    ensures SameValue(r, c, exponent) <==> Width(c) <= PRECISION || c % Pow10(Width(c) - PRECISION) == 0
  {
    ParsedIs(n, fraction, currency, scale, text, r);
    RoundedIsExact(r, c, exponent);
  }

  lemma ParsedIs(n: nat, fraction: string, currency: Option<string>, scale: Scale, text: string, r: Decimal)
    requires AllDigits(fraction) && text == Render(n, fraction)
    requires Parse(text, currency, scale) == Success(r)
    ensures r == Rounded(Scaled(Coefficient(n, fraction), scale), -(|fraction| as int), PRECISION)
  {
    var c := RenderedReads(n, fraction, currency, scale);
  }

  lemma RoundedIsExact(r: Decimal, c: nat, exponent: int)
    requires r == Rounded(c, exponent, PRECISION)
    ensures r.exponent >= exponent
    ensures SameValue(r, c, exponent) <==> Width(c) <= PRECISION || c % Pow10(Width(c) - PRECISION) == 0
  {
    RoundedExactly(c, exponent, PRECISION);
  }

  /** The reading is not exact without limit: of every whole number one digit longer than the context
      keeps, the parser drops the last digit, and so changes the value unless that digit is zero. */
  lemma LongNumberRounds(n: nat, currency: Option<string>, text: string, r: Decimal)
    requires Width(n) == PRECISION + 1 && text == Render(n, "")
    requires Parse(text, currency, NoScale) == Success(r)
    ensures r.exponent >= 1
    ensures SameValue(r, n, 0) <==> n % 10 == 0
  {
    WholeCoefficient(n);
    ParsedIs(n, "", currency, NoScale, text, r);
    LongIsShortened(n, r);
  }

  /** Between two neighbouring multiples, the nearer is chosen, or the even one. */
  lemma NearerOf(p: nat, q: nat, r: nat, chosen: nat)
    requires r < p
    requires chosen == if 2 * r > p || (2 * r == p && q % 2 == 1) then q + 1 else q
    ensures 2 * (q * p + r) <= 2 * (chosen * p) + p && 2 * (chosen * p) <= 2 * (q * p + r) + p
    ensures 2 * (q * p + r) == 2 * (chosen * p) + p || 2 * (chosen * p) == 2 * (q * p + r) + p ==> chosen % 2 == 0
  {
    assert (q + 1) * p == q * p + p;
  }

  lemma Divided(c: nat, p: nat) returns (q: nat, r: nat)
    requires p > 0
    ensures q == c / p && r == c % p && c == q * p + r && r < p
  {
    QuotientIsNat(c, p);
    q, r := c / p, c % p;
  }

  /** What is kept of a number that is too long is the nearest multiple of the dropped power, and the
      even one of two equally near. */
  lemma RoundedToNearest(c: nat, drop: nat, kept: nat)
    requires kept == RoundHalfEven(c, drop)
    ensures 2 * c <= 2 * (kept * Pow10(drop)) + Pow10(drop) && 2 * (kept * Pow10(drop)) <= 2 * c + Pow10(drop)
    ensures 2 * c == 2 * (kept * Pow10(drop)) + Pow10(drop) || 2 * (kept * Pow10(drop)) == 2 * c + Pow10(drop) ==> kept % 2 == 0
  {
    var q, r := Divided(c, Pow10(drop));
    NearerOf(Pow10(drop), q, r, kept);
  }

  lemma WholeCoefficient(n: nat)
    ensures Scaled(Coefficient(n, ""), NoScale) == n
  {
    assert Pow10(0) == 1;
  }

  lemma LongIsShortened(n: nat, r: Decimal)
    requires Width(n) == PRECISION + 1 && r == Rounded(n, 0, PRECISION)
    ensures r.exponent >= 1
    ensures SameValue(r, n, 0) <==> n % 10 == 0
  {
    RoundedIsExact(r, n, 0);
    assert Pow10(1) == 10 * Pow10(0);
  }

  /** Whitespace anywhere in a token is ignored. */
  lemma {:induction false} SpacesIgnored(a: string, b: string)
    requires forall i :: 0 <= i < |b| ==> IsSpace(b[i])
    ensures forall c :: Compact(a + b + c) == Compact(a + c)
  {
    forall c
      ensures Compact(a + b + c) == Compact(a + c)
    {
      CompactConcat(a + b, c);
      CompactConcat(a, b);
      CompactConcat(a, c);
      CompactSpaces(b);
    }
  }

  lemma {:induction false} CompactConcat(a: string, b: string)
    ensures Compact(a + b) == Compact(a) + Compact(b)
  {
    if a == "" {
      assert a + b == b;
    } else {
      assert (a + b)[1..] == a[1..] + b;
      CompactConcat(a[1..], b);
    }
  }

  lemma {:induction false} CompactSpaces(b: string)
    requires forall i :: 0 <= i < |b| ==> IsSpace(b[i])
    ensures Compact(b) == ""
  {
    if b != "" {
      CompactSpaces(b[1..]);
    }
  }
}
