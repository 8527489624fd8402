/** What the text of a duration is worth, as a function of the numbers and the unit
    it is written from. */
module DurationTexts {
  import opened Results
  import opened Durations

  /** A number in a given number of digits, leading zeros and all. */
  function Written(n: nat, width: nat): string {
    if width == 0 then "" else Written(n / 10, width - 1) + ['0' + (n % 10) as char]
  }

  lemma {:induction false} WrittenIsRead(n: nat, width: nat)
    requires n < Pow10(width)
    ensures Number(Written(n, width)) == n && |Written(n, width)| == width && AllDigits(Written(n, width))
  {
    if width > 0 {
      hide Pow10;
      PowStep(width);
      WrittenIsRead(n / 10, width - 1);
      var front := Written(n / 10, width - 1);
      LastDigit(n);
      hide Number, DigitValue;
      Grow(front, '0' + (n % 10) as char, Written(n, width));
    }
  }

  lemma LastDigit(n: nat)
    ensures var c := '0' + (n % 10) as char; Digit(c) && DigitValue(c) == n % 10
  {
  }

  /** A whole part and, unless it has no digits, a fraction. */
  function Literal(whole: string, fraction: string): string {
    if fraction == "" then whole else whole + "." + fraction
  }

  lemma LiteralParts(whole: string, fraction: string)
    requires AllDigits(whole) && AllDigits(fraction)
    ensures WholePart(Literal(whole, fraction)) == whole && FractionPart(Literal(whole, fraction)) == fraction
  {
    hide DotAt;
    var literal := Literal(whole, fraction);
    assert forall i :: 0 <= i < |whole| ==> literal[i] == whole[i] && Digit(whole[i]);
    if fraction != "" {
      assert literal[|whole|] == '.' && literal[|whole| + 1..] == fraction;
    }
    assert DotAt(literal) == |whole|;
  }

  /** The names of each unit. */
  function NamesOf(factor: nat): seq<string> {
    if factor == 1 then ["ms", "milli", "millis", "millisecond", "milliseconds"]
    else if factor == 1_000 then ["s", "sec", "secs", "second", "seconds"]
    else if factor == 60_000 then ["m", "min", "mins", "minute", "minutes"]
    else if factor == 3_600_000 then ["h", "hr", "hrs", "hour", "hours"]
    else []
  }

  /** The same letters, whether small or capital. */
  ghost predicate SameLetters(unit: string, name: string) {
    |unit| == |name|
    && forall i :: 0 <= i < |unit| ==> unit[i] == name[i] || ('A' <= unit[i] <= 'Z' && unit[i] as int + 32 == name[i] as int)
  }

  lemma SmallLetters(unit: string, name: string)
    requires forall i :: 0 <= i < |name| ==> 'a' <= name[i] <= 'z'
    ensures SameLetters(unit, name) <==> Lower(unit) == name
  {
    var l := Lower(unit);
    if SameLetters(unit, name) {
      assert forall i :: 0 <= i < |l| ==> l[i] == name[i];
    }
  }

  lemma NamesAreSmall(factor: nat, name: string)
    requires name in NamesOf(factor)
    ensures name != "" && forall i :: 0 <= i < |name| ==> 'a' <= name[i] <= 'z'
  {
  }

  lemma LowerNamesUnit(unit: string, factor: nat)
    ensures UnitMillis(unit) == Some(factor) <==> Lower(unit) in NamesOf(factor)
  {
    hide Lower;
  }

  /** A unit means a factor exactly when it is one of the factor's names, in letters of
      either case. */
  lemma UnitIsByName(unit: string, factor: nat)
    ensures UnitMillis(unit) == Some(factor) <==> exists name :: name in NamesOf(factor) && SameLetters(unit, name)
  {
    LowerNamesUnit(unit, factor);
    hide NamesOf, UnitMillis, Lower, SameLetters;
    forall name | name in NamesOf(factor)
      ensures SameLetters(unit, name) <==> Lower(unit) == name
    {
      NamesAreSmall(factor, name);
      SmallLetters(unit, name);
    }
  }

  lemma UnitIsAlphabetic(unit: string, factor: nat)
    requires UnitMillis(unit) == Some(factor)
    ensures unit != "" && forall i :: 0 <= i < |unit| ==> Alphabetic(unit[i])
  {
    LowerNamesUnit(unit, factor);
    hide UnitMillis, NamesOf;
    NamesAreSmall(factor, Lower(unit));
    forall i | 0 <= i < |unit|
      ensures Alphabetic(unit[i])
    {
      assert 'a' <= Lower(unit)[i] <= 'z';
    }
  }

  /** A number of up to 64 bits and a fraction of up to nine digits, followed by a unit,
      are worth the product, rounded down and saturated; no larger number is accepted. */
  lemma DecimalIsWorth(whole: nat, wholeDigits: nat, fraction: nat, fractionDigits: nat, unit: string, factor: nat)
    requires whole < Pow10(wholeDigits) && wholeDigits > 0 && fraction < Pow10(fractionDigits) && fractionDigits <= 9
    requires UnitMillis(unit) == Some(factor)
    ensures var text := Literal(Written(whole, wholeDigits), Written(fraction, fractionDigits)) + unit;
            var worth := whole * factor + fraction * factor / Pow10(fractionDigits);
            DurationMillis(text) == if whole > 0xFFFF_FFFF_FFFF_FFFF then None
                                    else if worth > 0xFFFF_FFFF_FFFF_FFFF then Some(0xFFFF_FFFF_FFFF_FFFF)
                                    else Some(worth)
  {
    hide UnitMillis, Pow10, Number, WholePart, FractionPart, AllDigits, Literal, Written, DurationMillis, ParseHead, Alphabetic;
    var (w, f) := (Written(whole, wholeDigits), Written(fraction, fractionDigits));
    var literal := Literal(w, f);
    WrittenIsRead(whole, wholeDigits);
    WrittenIsRead(fraction, fractionDigits);
    LiteralParts(w, f);
    LiteralIsMagnitude(w, f);
    UnitIsAlphabetic(unit, factor);
    assert f[..fractionDigits] == f;
    if whole <= 0xFFFF_FFFF_FFFF_FFFF {
      assert ValidSegment(Segment(literal, unit));
      OneSegment(Segment(literal, unit));
    } else {
      NoSegmentFits(literal, unit);
    }
  }

  /** What the exact value, which truncation is measured against, is of such a text,
      with any number of fraction digits. */
  lemma ExactValueIs(whole: nat, wholeDigits: nat, fraction: nat, fractionDigits: nat, factor: nat)
    requires whole < Pow10(wholeDigits) && fraction < Pow10(fractionDigits)
    ensures ExactMillis(Literal(Written(whole, wholeDigits), Written(fraction, fractionDigits)), factor)
            == whole * factor + fraction * factor / Pow10(fractionDigits)
  {
    hide Pow10, Number, WholePart, FractionPart, AllDigits, Literal, Written;
    WrittenIsRead(whole, wholeDigits);
    WrittenIsRead(fraction, fractionDigits);
    LiteralParts(Written(whole, wholeDigits), Written(fraction, fractionDigits));
  }

  lemma LiteralIsMagnitude(whole: string, fraction: string)
    requires AllDigits(whole) && AllDigits(fraction)
    ensures forall i :: 0 <= i < |Literal(whole, fraction)| ==> MagnitudeChar(Literal(whole, fraction)[i])
    ensures whole != "" ==> Literal(whole, fraction) != ""
  {
    assert forall i :: 0 <= i < |whole| ==> MagnitudeChar(whole[i]);
    assert forall i :: 0 <= i < |fraction| ==> MagnitudeChar(fraction[i]);
  }

  lemma OneSegment(g: Segment)
    requires ValidSegment(g)
    ensures DurationMillis(g.magnitude + g.unit) == Some(Saturate(SegmentMillis(g)))
  {
    hide ParseSegments, ValidSegment, SegmentMillis, DurationMillis, Saturate;
    assert [g][1..] == [] && Text([]) == "" && Total([]) == 0;
    assert g.unit + "" == g.unit;
    assert Text([g]) == g.magnitude + g.unit && Total([g]) == SegmentMillis(g);
    assert AllValid([g]);
    MeaningOf([g]);
  }

  /** A magnitude out of range makes no segment. */
  lemma NoSegmentFits(literal: string, unit: string)
    requires literal != "" && (forall i :: 0 <= i < |literal| ==> MagnitudeChar(literal[i])) && !Decimal(literal)
    requires unit != "" && forall i :: 0 <= i < |unit| ==> Alphabetic(unit[i])
    ensures DurationMillis(literal + unit) == None
  {
    hide Decimal, ScaledMillis, UnitMillis, MagnitudeEnd, UnitEnd;
    var s := literal + unit;
    assert unit + "" == unit && literal + (unit + "") == s;
    EndsAreFound(literal, unit, "");
    assert s[..|literal|] == literal && s[|literal|..] == unit && unit[..|unit|] == unit;
    if UnitMillis(unit).Some? {
      ScaledIsTruncated(literal, UnitMillis(unit).value);
    }
    assert ParseHead(s) == NoSegment;
  }
}
