/** Duration literals such as 1h30m or 1.5s (urouter-contracts/src/backoff.rs). */
module Durations {
  import opened Results
  import opened Arithmetic
  import opened Sequences
  import opened Whitespace

  const U64_MAX: nat := 0xFFFF_FFFF_FFFF_FFFF

  function Saturate(x: nat): nat {
    if x > U64_MAX then U64_MAX else x
  }

  predicate Digit(c: char) {
    '0' <= c <= '9'
  }

  predicate AllDigits(s: string) {
    forall i :: 0 <= i < |s| ==> Digit(s[i])
  }

  predicate Alphabetic(c: char) {
    'a' <= c <= 'z' || 'A' <= c <= 'Z'
  }

  function Lower(s: string): (r: string)
    ensures |r| == |s|
  {
    seq(|s|, i requires 0 <= i < |s| => if 'A' <= s[i] <= 'Z' then s[i] - 'A' + 'a' else s[i])
  }

  function UnitMillis(unit: string): (r: Option<nat>)
    ensures r.Some? ==> r.value in {1, 1_000, 60_000, 3_600_000}
  {
    var u := Lower(unit);
    if u in {"ms", "milli", "millis", "millisecond", "milliseconds"} then Some(1)
    else if u in {"s", "sec", "secs", "second", "seconds"} then Some(1_000)
    else if u in {"m", "min", "mins", "minute", "minutes"} then Some(60_000)
    else if u in {"h", "hr", "hrs", "hour", "hours"} then Some(3_600_000)
    else None
  }

  // Decimals.

  function Pow10(n: nat): (p: nat)
    ensures p > 0
  {
    if n == 0 then 1 else 10 * Pow10(n - 1)
  }

  function DigitValue(c: char): nat {
    if Digit(c) then c as int - '0' as int else 0
  }

  /** The number a string of digits spells; the empty string spells zero. */
  function Number(s: string): nat {
    if s == "" then 0 else 10 * Number(s[..|s| - 1]) + DigitValue(s[|s| - 1])
  }

  /** The position of the first dot, or the length. */
  function DotAt(s: string): (i: nat)
    ensures i <= |s| && (i < |s| ==> s[i] == '.') && forall k :: 0 <= k < i ==> s[k] != '.'
  {
    if s == "" || s[0] == '.' then 0 else 1 + DotAt(s[1..])
  }

  function WholePart(literal: string): string {
    literal[..DotAt(literal)]
  }

  function FractionPart(literal: string): string {
    if DotAt(literal) < |literal| then literal[DotAt(literal) + 1..] else ""
  }

  /** A decimal the parser accepts: digits, at most one dot, a whole part of 64 bits. */
  predicate Decimal(literal: string) {
    (WholePart(literal) != "" || FractionPart(literal) != "")
    && AllDigits(WholePart(literal)) && AllDigits(FractionPart(literal)) && Number(WholePart(literal)) <= U64_MAX
  }

  function Min9(n: nat): nat {
    if n < 9 then n else 9
  }

  function Times(a: nat, b: nat): nat {
    a * b
  }

  function Quotient(a: nat, b: nat): nat
    requires b > 0
  {
    a / b
  }

  /** scaled_millis: at most nine fraction digits count. */
  function ScaledMillis(literal: string, scale: nat): Option<nat> {
    var whole, fraction := WholePart(literal), FractionPart(literal);
    if whole == "" && fraction == "" then None
    else if !AllDigits(whole) || !AllDigits(fraction) then None
    else if Number(whole) > U64_MAX then None
    else
      var total := Saturate(Times(Number(whole), scale));
      if fraction == "" then Some(total)
      else
        var digits := Min9(|fraction|);
        Some(Saturate(total + Quotient(Times(Number(fraction[..digits]), scale), Pow10(digits))))
  }

  function MillisOf(whole: nat, fraction: nat, digits: nat, scale: nat): nat {
    Times(whole, scale) + Quotient(Times(fraction, scale), Pow10(digits))
  }

  /** The exact number of whole milliseconds in a decimal. */
  function ExactMillis(literal: string, scale: nat): nat {
    MillisOf(Number(WholePart(literal)), Number(FractionPart(literal)), |FractionPart(literal)|, scale)
  }

  /** The same from the fraction's first nine digits only. */
  function TruncatedMillis(literal: string, scale: nat): nat {
    var digits := Min9(|FractionPart(literal)|);
    MillisOf(Number(WholePart(literal)), Number(FractionPart(literal)[..digits]), digits, scale)
  }

  lemma {:induction false} NumberBound(s: string)
    ensures Number(s) < Pow10(|s|)
  {
    if s != "" {
      NumberBound(s[..|s| - 1]);
    }
  }

  lemma TenTimes(a: nat, p: nat)
    ensures 10 * (a * p) == a * (10 * p)
  {
  }

  lemma AppendDigit(front: nat, head: nat, power: nat, tail: nat, digit: nat)
    requires front == head * power + tail
    ensures 10 * front + digit == head * (10 * power) + (10 * tail + digit)
  {
    TenTimes(head, power);
  }

  lemma {:induction false} NumberSplit(s: string, d: nat)
    requires d <= |s|
    ensures Number(s) == Number(s[..d]) * Pow10(|s| - d) + Number(s[d..])
    decreases |s|
  {
    hide Number, Pow10;
    NumberOfNothing();
    if d == |s| {
      assert s[..d] == s && s[d..] == "";
    } else {
      var front, tail, n := s[..|s| - 1], s[d..], |s| - d;
      NumberSplit(front, d);
      assert front[..d] == s[..d] && front[d..] == tail[..n - 1] && tail[n - 1] == s[|s| - 1];
      AppendDigit(Number(front), Number(s[..d]), Pow10(n - 1), Number(tail[..n - 1]), DigitValue(s[|s| - 1]));
      PowStep(n);
      NumberEnds(s);
      NumberEnds(tail);
    }
  }

  lemma NumberOfNothing()
    ensures Number("") == 0 && Pow10(0) == 1
  {
  }

  lemma PowStep(n: nat)
    requires n > 0
    ensures Pow10(n) == 10 * Pow10(n - 1)
  {
  }

  lemma NumberEnds(s: string)
    requires s != ""
    ensures Number(s) == 10 * Number(s[..|s| - 1]) + DigitValue(s[|s| - 1])
  {
  }

  lemma {:induction false} PowSplit(a: nat, b: nat)
    ensures Pow10(a + b) == Pow10(a) * Pow10(b)
  {
    if a > 0 {
      PowSplit(a - 1, b);
      TenTimes(Pow10(b), Pow10(a - 1));
    }
  }

  // Division facts.

  lemma MulOrder(k: nat, a: nat, b: nat)
    requires a <= b
    ensures k * a <= k * b
  {
  }

  lemma DivTwice(x: nat, j: nat, k: nat)
    requires j > 0 && k > 0
    ensures j * k > 0 && x / (j * k) == x / j / k
  {
    var a, r := x / j, x % j;
    var q, t := a / k, a % k;
    assert x == j * (k * q + t) + r;
    assert j * (k * q + t) == (j * k) * q + j * t;
    MulOrder(j, t, k - 1);
    assert j * (k - 1) == j * k - j;
    ProductGap(j, k, 0);
    QuotientIs(x, j * k, q, j * t + r);
  }

  lemma DivScaled(x: nat, j: nat, k: nat)
    requires j > 0 && k > 0
    ensures j * k > 0 && (x * j) / (j * k) == x / k
  {
    DivTwice(x * j, j, k);
    QuotientIs(x * j, j, x, 0);
  }

  lemma DivBetween(low: nat, m: nat, k: nat, scale: nat)
    requires 0 < scale <= k && low <= m <= low + scale
    ensures low / k <= m / k <= low / k + 1
  {
    DivOrder(low, m, k);
    DivOrder(m, low + k, k);
    var q, r := low / k, low % k;
    assert low + k == k * (q + 1) + r;
    QuotientIs(low + k, k, q + 1, r);
  }

  lemma Spread(v: nat, t: nat, p: nat, scale: nat)
    ensures (v * p + t) * scale == p * (v * scale) + t * scale
  {
    assert (v * p) * scale == p * (v * scale);
  }

  /** Dropping a fraction's tail t below p costs at most one. */
  lemma TailMatters(v: nat, t: nat, p: nat, scale: nat, k: nat)
    requires p > 0 && k > 0 && t < p && 0 < scale <= k
    ensures k * p > 0
    ensures v * scale / k <= (v * p + t) * scale / (k * p) <= v * scale / k + 1
  {
    var x := (v * p + t) * scale;
    Spread(v, t, p, scale);
    TailOfDivision(v * scale, t, p, scale, x);
    DivTwice(x, p, k);
    DivBetween(v * scale, x / p, k, scale);
    assert p * k == k * p;
  }

  lemma TailOfDivision(w: nat, t: nat, p: nat, scale: nat, x: nat)
    requires p > 0 && t < p && x == p * w + t * scale
    ensures w <= x / p <= w + scale
  {
    MulOrder(scale, t, p);
    assert t * scale == scale * t && scale * p == p * scale;
    DivOrder(p * w, x, p);
    QuotientIs(p * w, p, w, 0);
    assert p * w + p * scale == p * (w + scale);
    DivOrder(x, p * (w + scale), p);
    QuotientIs(p * (w + scale), p, w + scale, 0);
  }

  lemma TailDoesNotMatter(v: nat, t: nat, p: nat, scale: nat, q: nat)
    requires p > 0 && t < p && scale > 0 && q > 0
    ensures scale * q > 0 && scale * q * p > 0
    ensures (v * p + t) * scale / (scale * q * p) == v * scale / (scale * q)
  {
    var f := v * p + t;
    ProductGap(q, p, 0);
    ProductGap(scale, q, 0);
    assert scale * q * p == scale * (p * q);
    DivScaled(f, scale, p * q);
    DivTwice(f, p, q);
    assert f == p * v + t;
    QuotientIs(f, p, v, t);
    DivScaled(v, scale, q);
  }

  lemma {:induction false} NinePower()
    ensures Pow10(9) == 1_000_000_000
  {
    assert Pow10(3) == 1_000;
    PowSplit(3, 3);
    PowSplit(6, 3);
  }

  lemma SplitFraction(fraction: string, scale: nat)
    requires |fraction| > 9
    ensures Pow10(9) == 1_000_000_000
    ensures var v, t, p := Number(fraction[..9]), Number(fraction[9..]), Pow10(|fraction| - 9);
            t < p && Number(fraction) == v * p + t && Pow10(|fraction|) == Pow10(9) * p
  {
    hide Number, Pow10;
    NumberSplit(fraction, 9);
    NumberBound(fraction[9..]);
    PowSplit(9, |fraction| - 9);
    NinePower();
  }

  /** Cutting the fraction after nine digits costs at most a millisecond, and nothing
      for seconds and milliseconds. */
  lemma TruncationCost(literal: string, scale: nat)
    requires scale in {1, 1_000, 60_000, 3_600_000}
    ensures TruncatedMillis(literal, scale) <= ExactMillis(literal, scale) <= TruncatedMillis(literal, scale) + 1
    ensures scale in {1, 1_000} ==> TruncatedMillis(literal, scale) == ExactMillis(literal, scale)
  {
    hide Number, Pow10, WholePart, FractionPart;
    var fraction := FractionPart(literal);
    if |fraction| <= 9 {
      assert fraction[..|fraction|] == fraction;
    } else {
      SplitFraction(fraction, scale);
      var v, t, p := Number(fraction[..9]), Number(fraction[9..]), Pow10(|fraction| - 9);
      TailMatters(v, t, p, scale, 1_000_000_000);
      if scale == 1 {
        TailDoesNotMatter(v, t, p, 1, 1_000_000_000);
      } else if scale == 1_000 {
        TailDoesNotMatter(v, t, p, 1_000, 1_000_000);
      }
    }
  }

  /** The parser accepts exactly the decimals and computes their truncated value. */
  lemma ScaledIsTruncated(literal: string, scale: nat)
    ensures ScaledMillis(literal, scale).Some? <==> Decimal(literal)
    ensures Decimal(literal) ==> ScaledMillis(literal, scale) == Some(Saturate(TruncatedMillis(literal, scale)))
  {
    hide AllDigits, Pow10;
    assert FractionPart(literal) == "" ==> FractionPart(literal)[..0] == "" && Number("") == 0;
    NumberOfNothing();
    QuotientIs(0, 1, 0, 0);
  }

  lemma Grow(s: string, c: char, t: string)
    requires t == s + [c]
    ensures Number(t) == 10 * Number(s) + DigitValue(c)
  {
    assert t[..|s|] == s;
  }

  lemma NineDigits()
    ensures Number("000016666") == 16_666 && Number("000000277") == 277
  {
    hide Number, Pow10;
    NumberOfNothing();
    Grow("", '0', "0");
    Grow("0", '0', "00");
    Grow("00", '0', "000");
    Grow("000", '0', "0000");
    Grow("0000", '1', "00001");
    Grow("00001", '6', "000016");
    Grow("000016", '6', "0000166");
    Grow("0000166", '6', "00001666");
    Grow("00001666", '6', "000016666");
    Grow("0000", '0', "00000");
    Grow("00000", '0', "000000");
    Grow("000000", '2', "0000002");
    Grow("0000002", '7', "00000027");
    Grow("00000027", '7', "000000277");
  }

  lemma PartsOf(fraction: string)
    ensures WholePart("." + fraction) == "" && FractionPart("." + fraction) == fraction
  {
  }

  /** A fraction of ten digits, as its first nine and the last. */
  lemma TenDigits(nine: string, last: char, scale: nat)
    requires |nine| == 9
    ensures var literal := "." + (nine + [last]);
            ExactMillis(literal, scale) == Times(10 * Number(nine) + DigitValue(last), scale) / 10_000_000_000
            && TruncatedMillis(literal, scale) == Times(Number(nine), scale) / 1_000_000_000
  {
    hide Number, FractionPart, WholePart, Pow10, Times, DigitValue;
    var ten := nine + [last];
    PartsOf(ten);
    Grow(nine, last, ten);
    assert ten[..9] == nine;
    NumberOfNothing();
    NinePower();
    PowStep(10);
    NoTimes(scale);
  }

  lemma NoTimes(scale: nat)
    ensures Times(0, scale) == 0
  {
  }

  /** The millisecond is lost in minutes and in hours, where a fraction needs its tenth
      digit. */
  lemma TruncationIsReached()
    ensures var literal := "." + ("000016666" + "7");
            ExactMillis(literal, 60_000) == 1 && TruncatedMillis(literal, 60_000) == 0
    ensures var literal := "." + ("000000277" + "8");
            ExactMillis(literal, 3_600_000) == 1 && TruncatedMillis(literal, 3_600_000) == 0
  {
    hide Number, ExactMillis, TruncatedMillis;
    NineDigits();
    TenDigits("000016666", '7', 60_000);
    TenDigits("000000277", '8', 3_600_000);
  }

  /** What the digits after the ninth are worth, and what the first nine leave over of a
      millisecond, both in parts of 10^9 * 10^(digits dropped). */
  ghost predicate DroppedDigitsCompleteAMilli(literal: string, scale: nat) {
    var fraction := FractionPart(literal);
    |fraction| > 9
    && var dropped := Pow10(|fraction| - 9);
       Times(Number(fraction[9..]), scale)
       >= Times(1_000_000_000 - Times(Number(fraction[..9]), scale) % 1_000_000_000, dropped)
  }

  /** Division by k * p, when w is q whole k and r over. */
  lemma SplitQuotient(w: nat, k: nat, q: nat, r: nat, p: nat, u: nat)
    requires k > 0 && p > 0 && r < k && w == k * q + r && u < k * p
    ensures k * p > 0
    ensures (p * w + u) / (k * p) == if u < (k - r) * p then q else q + 1
  {
    ProductGap(k, p, 0);
    assert p * w == p * (k * q) + p * r;
    assert p * (k * q) == (k * p) * q;
    assert (k - r) * p == k * p - r * p;
    MulOrder(p, r, k - 1);
    assert p * (k - 1) == k * p - p && p * r == r * p;
    if u < (k - r) * p {
      QuotientIs(p * w + u, k * p, q, p * r + u);
    } else {
      assert (k * p) * (q + 1) == (k * p) * q + k * p;
      QuotientIs(p * w + u, k * p, q + 1, p * r + u - k * p);
    }
  }

  lemma TailIsSmall(t: nat, p: nat, scale: nat, k: nat)
    requires t < p && 0 < scale <= k
    ensures t * scale < k * p
  {
    MulOrder(t, scale, k);
    assert k * p - k * t == k * (p - t);
    ProductGap(k, p, t);
    assert t * k == k * t;
  }

  /** A millisecond is lost exactly when the dropped digits would have completed it. */
  lemma WhenTruncationLoses(literal: string, scale: nat)
    requires scale in {1, 1_000, 60_000, 3_600_000}
    ensures TruncatedMillis(literal, scale) != ExactMillis(literal, scale) <==> DroppedDigitsCompleteAMilli(literal, scale)
  {
    hide Number, Pow10, WholePart, FractionPart;
    var fraction := FractionPart(literal);
    if |fraction| <= 9 {
      assert fraction[..|fraction|] == fraction;
    } else {
      SplitFraction(fraction, scale);
      var v, t, p := Number(fraction[..9]), Number(fraction[9..]), Pow10(|fraction| - 9);
      TailLoses(v, t, p, scale);
    }
  }

  lemma TailLoses(v: nat, t: nat, p: nat, scale: nat)
    requires t < p && 0 < scale <= 1_000_000_000
    ensures 1_000_000_000 * p > 0
    ensures (v * p + t) * scale / (1_000_000_000 * p) != v * scale / 1_000_000_000
            <==> t * scale >= (1_000_000_000 - v * scale % 1_000_000_000) * p
  {
    var w, k := v * scale, 1_000_000_000;
    Spread(v, t, p, scale);
    TailIsSmall(t, p, scale, k);
    SplitQuotient(w, k, w / k, w % k, p, t * scale);
  }

  /** Further digits make no difference exactly in milliseconds and seconds. */
  lemma UnitsThatLoseNothing(scale: nat)
    requires scale in {1, 1_000, 60_000, 3_600_000}
    ensures (forall literal :: TruncatedMillis(literal, scale) == ExactMillis(literal, scale)) <==> scale in {1, 1_000}
  {
    hide ExactMillis, TruncatedMillis;
    TruncationIsReached();
    if scale in {1, 1_000} {
      forall literal
        ensures TruncatedMillis(literal, scale) == ExactMillis(literal, scale)
      {
        TruncationCost(literal, scale);
      }
    }
  }

  /** Nine fraction digits lose nothing in any unit. */
  lemma NineDigitsLoseNothing(literal: string, scale: nat)
    requires |FractionPart(literal)| <= 9
    ensures TruncatedMillis(literal, scale) == ExactMillis(literal, scale)
  {
    hide FractionPart, WholePart;
    var fraction := FractionPart(literal);
    assert fraction[..|fraction|] == fraction;
  }

  // Segments.

  datatype Segment = Segment(magnitude: string, unit: string)

  predicate MagnitudeChar(c: char) {
    Digit(c) || c == '.'
  }

  predicate ValidSegment(g: Segment) {
    Decimal(g.magnitude) && (forall i :: 0 <= i < |g.magnitude| ==> MagnitudeChar(g.magnitude[i]))
    && UnitMillis(g.unit).Some? && g.unit != "" && forall i :: 0 <= i < |g.unit| ==> Alphabetic(g.unit[i])
  }

  predicate AllValid(segments: seq<Segment>) {
    forall i :: 0 <= i < |segments| ==> ValidSegment(segments[i])
  }

  function Text(segments: seq<Segment>): string {
    if segments == [] then "" else segments[0].magnitude + (segments[0].unit + Text(segments[1..]))
  }

  function SegmentMillis(g: Segment): nat {
    if UnitMillis(g.unit).Some? then Saturate(TruncatedMillis(g.magnitude, UnitMillis(g.unit).value)) else 0
  }

  /** A segment is worth its exact value rounded down, or a millisecond less; hours and
      minutes alone can lose that millisecond. */
  lemma SegmentAccuracy(g: Segment)
    requires ValidSegment(g)
    ensures var exact := Saturate(ExactMillis(g.magnitude, UnitMillis(g.unit).value));
            SegmentMillis(g) <= exact <= SegmentMillis(g) + 1
            && (UnitMillis(g.unit).value in {1, 1_000} ==> SegmentMillis(g) == exact)
  {
    hide TruncatedMillis, ExactMillis, UnitMillis, Decimal;
    TruncationCost(g.magnitude, UnitMillis(g.unit).value);
  }

  function Total(segments: seq<Segment>): nat {
    if segments == [] then 0 else SegmentMillis(segments[0]) + Total(segments[1..])
  }

  ghost predicate Spells(segments: seq<Segment>, value: string) {
    segments != [] && AllValid(segments) && Text(segments) == value
  }

  function MagnitudeEnd(s: string): (n: nat)
    ensures n <= |s| && forall i :: 0 <= i < n ==> MagnitudeChar(s[i])
    ensures n < |s| ==> !MagnitudeChar(s[n])
  {
    if s == "" || !MagnitudeChar(s[0]) then 0 else 1 + MagnitudeEnd(s[1..])
  }

  function UnitEnd(s: string): (n: nat)
    ensures n <= |s| && forall i :: 0 <= i < n ==> Alphabetic(s[i])
    ensures n < |s| ==> !Alphabetic(s[n])
  {
    if s == "" || !Alphabetic(s[0]) then 0 else 1 + UnitEnd(s[1..])
  }

  datatype Head = NoSegment | First(segment: Segment, rest: string)

  /** The segment a text starts with, each part as long as it can be. */
  function ParseHead(s: string): (h: Head)
    ensures h.First? ==> |h.rest| < |s|
  {
    var n := MagnitudeEnd(s);
    var u := UnitEnd(s[n..]);
    var unit := s[n..][..u];
    if n == 0 || u == 0 || UnitMillis(unit).None? || ScaledMillis(s[..n], UnitMillis(unit).value).None? then NoSegment
    else First(Segment(s[..n], unit), s[n..][u..])
  }

  function ParseSegments(s: string): Option<seq<Segment>>
    decreases |s|
  {
    if s == "" then Some([])
    else
      match ParseHead(s)
      case NoSegment => None
      case First(segment, rest) =>
        var tail := ParseSegments(rest);
        if tail.None? then None else Some([segment] + tail.value)
  }

  function DurationMillis(value: string): Option<nat> {
    if value == "" || ParseSegments(value).None? then None else Some(Saturate(Total(ParseSegments(value).value)))
  }

  lemma HeadIsValid(s: string)
    ensures var h := ParseHead(s);
            h.First? ==> ValidSegment(h.segment) && s == h.segment.magnitude + (h.segment.unit + h.rest)
  {
    hide Decimal, ScaledMillis, UnitMillis, MagnitudeEnd, UnitEnd;
    var n := MagnitudeEnd(s);
    var u := UnitEnd(s[n..]);
    var unit := s[n..][..u];
    if UnitMillis(unit).Some? {
      ScaledIsTruncated(s[..n], UnitMillis(unit).value);
    }
    assert s[n..] == unit + s[n..][u..];
  }

  lemma {:induction false} ParsedSpells(s: string)
    requires ParseSegments(s).Some?
    ensures AllValid(ParseSegments(s).value) && Text(ParseSegments(s).value) == s
    ensures s != "" ==> ParseSegments(s).value != []
    decreases |s|
  {
    hide ParseHead, ValidSegment;
    if s != "" {
      HeadIsValid(s);
      ParsedSpells(ParseHead(s).rest);
    }
  }

  lemma EndsAreFound(magnitude: string, unit: string, rest: string)
    requires forall i :: 0 <= i < |magnitude| ==> MagnitudeChar(magnitude[i])
    requires unit != "" && forall i :: 0 <= i < |unit| ==> Alphabetic(unit[i])
    requires rest == "" || MagnitudeChar(rest[0])
    ensures MagnitudeEnd(magnitude + (unit + rest)) == |magnitude| && UnitEnd(unit + rest) == |unit|
  {
    hide MagnitudeEnd, UnitEnd;
    var tail := unit + rest;
    var s := magnitude + tail;
    var n, u := MagnitudeEnd(s), UnitEnd(tail);
    assert s[|magnitude|] == unit[0] && Alphabetic(unit[0]);
    assert forall i :: 0 <= i < |magnitude| ==> s[i] == magnitude[i];
    assert forall i :: 0 <= i < |unit| ==> tail[i] == unit[i];
    assert rest != "" ==> tail[|unit|] == rest[0];
  }

  lemma HeadOfText(g: Segment, rest: string)
    requires ValidSegment(g) && (rest == "" || MagnitudeChar(rest[0]))
    ensures ParseHead(g.magnitude + (g.unit + rest)) == First(g, rest)
  {
    hide Decimal, ScaledMillis, UnitMillis, MagnitudeEnd, UnitEnd;
    var s := g.magnitude + (g.unit + rest);
    EndsAreFound(g.magnitude, g.unit, rest);
    DecimalIsNotEmpty(g.magnitude);
    assert s[..|g.magnitude|] == g.magnitude && s[|g.magnitude|..] == g.unit + rest;
    assert (g.unit + rest)[..|g.unit|] == g.unit && (g.unit + rest)[|g.unit|..] == rest;
    ScaledIsTruncated(g.magnitude, UnitMillis(g.unit).value);
  }

  lemma DecimalIsNotEmpty(literal: string)
    requires Decimal(literal)
    ensures literal != ""
  {
  }

  lemma TextStartsWithMagnitude(segments: seq<Segment>)
    requires AllValid(segments)
    ensures Text(segments) == "" || MagnitudeChar(Text(segments)[0])
    ensures segments != [] ==> Text(segments) != ""
  {
    hide Decimal;
    if segments != [] {
      assert ValidSegment(segments[0]);
      DecimalIsNotEmpty(segments[0].magnitude);
      assert Text(segments)[0] == segments[0].magnitude[0];
    }
  }

  lemma {:induction false} TextParses(segments: seq<Segment>)
    requires AllValid(segments)
    ensures ParseSegments(Text(segments)) == Some(segments)
  {
    hide ParseHead, ValidSegment;
    if segments != [] {
      TextParses(segments[1..]);
      TextStartsWithMagnitude(segments);
      TextStartsWithMagnitude(segments[1..]);
      HeadOfText(segments[0], Text(segments[1..]));
      assert segments == [segments[0]] + segments[1..];
    }
  }

  lemma {:induction false} TextOfConcat(a: seq<Segment>, b: seq<Segment>)
    ensures Text(a + b) == Text(a) + Text(b) && Total(a + b) == Total(a) + Total(b)
  {
    hide SegmentMillis;
    if a == [] {
      assert a + b == b && "" + Text(b) == Text(b);
    } else {
      TextOfConcat(a[1..], b);
      assert (a + b)[0] == a[0] && (a + b)[1..] == a[1..] + b;
      Associative(a[0].unit, Text(a[1..]), Text(b));
      Associative(a[0].magnitude, a[0].unit + Text(a[1..]), Text(b));
    }
  }

  lemma MeaningOf(segments: seq<Segment>)
    requires segments != [] && AllValid(segments)
    ensures DurationMillis(Text(segments)) == Some(Saturate(Total(segments)))
  {
    hide ParseSegments, Text, Total, AllValid;
    TextParses(segments);
    TextStartsWithMagnitude(segments);
  }

  lemma SegmentsOf(value: string) returns (segments: seq<Segment>)
    requires DurationMillis(value).Some?
    ensures Spells(segments, value) && DurationMillis(value) == Some(Saturate(Total(segments)))
  {
    hide ParseSegments, Text, Total, AllValid;
    segments := ParseSegments(value).value;
    ParsedSpells(value);
  }

  lemma SaturateAdds(x: nat, y: nat)
    ensures Saturate(x + y) == Saturate(Saturate(x) + Saturate(y))
  {
  }

  lemma SpellsTogether(x: seq<Segment>, a: string, y: seq<Segment>, b: string)
    requires Spells(x, a) && Spells(y, b)
    ensures Spells(x + y, a + b)
  {
    hide ValidSegment, Text;
    TextOfConcat(x, y);
  }

  /** Writing one duration after another adds them, up to saturation. */
  lemma ConcatenationAdds(a: string, b: string)
    requires DurationMillis(a).Some? && DurationMillis(b).Some?
    ensures DurationMillis(a + b) == Some(Saturate(DurationMillis(a).value + DurationMillis(b).value))
  {
    hide DurationMillis, Text, Total, AllValid, Saturate;
    var x := SegmentsOf(a);
    var y := SegmentsOf(b);
    SpellsTogether(x, a, y, b);
    MeaningOf(x + y);
    TextOfConcat(x, y);
    SaturateAdds(Total(x), Total(y));
  }

  /** The index loop accepts exactly the texts whose trimmed part is a non-empty run of
      segments, and returns the sum of their values. */
  method ParseDuration(value: string) returns (r: Option<nat>)
    ensures r == DurationMillis(Trim(value))
    ensures r.Some? <==> exists segments :: Spells(segments, Trim(value))
    ensures forall segments :: Spells(segments, Trim(value)) ==> r == Some(Saturate(Total(segments)))
  {
    hide DurationMillis, Spells, Trim;
    var trimmed := Trim(value);
    r := Scan(trimmed);
    if r.Some? {
      var segments := SegmentsOf(trimmed);
    }
    forall segments | Spells(segments, trimmed)
      ensures r == Some(Saturate(Total(segments)))
    {
      SpelledMeaning(segments, trimmed);
    }
  }

  /** White space around a duration means nothing; inside, it never parses. */
  lemma PaddingIsIgnored(before: string, segments: seq<Segment>, after: string)
    requires AllWhite(before) && AllWhite(after) && segments != [] && AllValid(segments)
    ensures DurationMillis(Trim(before + (Text(segments) + after))) == Some(Saturate(Total(segments)))
    ensures forall i :: 0 <= i < |Text(segments)| ==> !White(Text(segments)[i])
  {
    hide Trim, Text, Total, AllValid, DurationMillis, White;
    TextHasNoWhite(segments);
    TrimFinds(before, Text(segments), after);
    MeaningOf(segments);
  }

  lemma NoWhite(c: char)
    requires MagnitudeChar(c) || Alphabetic(c)
    ensures !White(c)
  {
  }

  lemma {:induction false} TextHasNoWhite(segments: seq<Segment>)
    requires AllValid(segments)
    ensures forall i :: 0 <= i < |Text(segments)| ==> !White(Text(segments)[i])
  {
    hide Decimal, UnitMillis, White, MagnitudeChar, Alphabetic;
    if segments != [] {
      var magnitude, unit := segments[0].magnitude, segments[0].unit;
      assert ValidSegment(segments[0]);
      forall i | 0 <= i < |magnitude|
        ensures !White(magnitude[i])
      {
        NoWhite(magnitude[i]);
      }
      forall i | 0 <= i < |unit|
        ensures !White(unit[i])
      {
        NoWhite(unit[i]);
      }
      TextHasNoWhite(segments[1..]);
    }
  }

  lemma SpelledMeaning(segments: seq<Segment>, value: string)
    requires Spells(segments, value)
    ensures DurationMillis(value) == Some(Saturate(Total(segments)))
  {
    hide DurationMillis, Total, AllValid;
    MeaningOf(segments);
  }

  /** What the segments from an index on still add to a total. */
  function Rest(total: nat, s: string): Option<nat> {
    match ParseSegments(s)
    case None => None
    case Some(segments) => Some(Saturate(total + Total(segments)))
  }

  lemma RestStep(total: nat, s: string)
    requires s != ""
    ensures ParseHead(s).NoSegment? ==> Rest(total, s).None?
    ensures ParseHead(s).First? ==>
              Rest(total, s) == Rest(Saturate(total + SegmentMillis(ParseHead(s).segment)), ParseHead(s).rest)
  {
    hide ParseHead, SegmentMillis;
  }

  lemma HeadValue(s: string)
    requires ParseHead(s).First?
    ensures var g := ParseHead(s).segment;
            UnitMillis(g.unit).Some? && ScaledMillis(g.magnitude, UnitMillis(g.unit).value) == Some(SegmentMillis(g))
  {
    hide ScaledMillis, UnitMillis, Decimal, TruncatedMillis;
    var g := ParseHead(s).segment;
    ScaledIsTruncated(g.magnitude, UnitMillis(g.unit).value);
  }

  lemma RestBounds(value: string, total: nat)
    ensures DurationMillis("").None?
    ensures value != "" ==> DurationMillis(value) == Rest(0, value)
    ensures total <= U64_MAX ==> Rest(total, "") == Some(total)
  {
  }

  lemma SaturatedIsSmall(x: nat)
    ensures Saturate(x) <= U64_MAX
  {
  }

  /** The head of a suffix in terms of the indices the loop stops at. */
  lemma HeadAt(value: string, start: nat, unitStart: nat, end: nat)
    requires start <= unitStart <= end <= |value|
    requires unitStart == start + MagnitudeEnd(value[start..]) && end == unitStart + UnitEnd(value[unitStart..])
    ensures var magnitude, unit := value[start..unitStart], value[unitStart..end];
            ParseHead(value[start..])
            == if start == unitStart || unitStart == end || UnitMillis(unit).None?
                  || ScaledMillis(magnitude, UnitMillis(unit).value).None? then NoSegment
               else First(Segment(magnitude, unit), value[end..])
  {
    hide MagnitudeEnd, UnitEnd, UnitMillis, ScaledMillis;
    Slices(value, start, unitStart, end);
  }

  method Scan(value: string) returns (r: Option<nat>)
    ensures r == DurationMillis(value)
  {
    hide DurationMillis, Rest, ParseHead, MagnitudeEnd, UnitEnd, UnitMillis, ScaledMillis, SegmentMillis, Saturate;
    RestBounds(value, 0);
    if value == "" {
      return None;
    }
    var total: nat := 0;
    var index: nat := 0;
    assert value[0..] == value;
    while index < |value|
      invariant index <= |value| && DurationMillis(value) == Rest(total, value[index..])
      invariant total <= U64_MAX
    {
      ghost var s := value[index..];
      RestStep(total, s);
      var start := index;
      var unitStart := SkipMagnitude(value, start);
      HeadAt(value, start, unitStart, unitStart + UnitEnd(value[unitStart..]));
      if unitStart == start {
        return None;
      }
      index := SkipUnit(value, unitStart);
      if index == unitStart {
        return None;
      }
      var unit := UnitMillis(value[unitStart..index]);
      if unit.None? {
        return None;
      }
      var millis := ScaledMillis(value[start..unitStart], unit.value);
      if millis.None? {
        return None;
      }
      HeadValue(s);
      SaturatedIsSmall(total + millis.value);
      total := Saturate(total + millis.value);
    }
    RestBounds(value, total);
    assert value[|value|..] == "";
    r := Some(total);
  }

  method SkipMagnitude(value: string, start: nat) returns (index: nat)
    requires start <= |value|
    ensures index == start + MagnitudeEnd(value[start..])
  {
    index := start;
    while index < |value| && (Digit(value[index]) || value[index] == '.')
      invariant start <= index <= |value| && start + MagnitudeEnd(value[start..]) == index + MagnitudeEnd(value[index..])
    {
      assert value[index..][1..] == value[index + 1..];
      index := index + 1;
    }
  }

  method SkipUnit(value: string, start: nat) returns (index: nat)
    requires start <= |value|
    ensures index == start + UnitEnd(value[start..])
  {
    index := start;
    while index < |value| && Alphabetic(value[index])
      invariant start <= index <= |value| && start + UnitEnd(value[start..]) == index + UnitEnd(value[index..])
    {
      assert value[index..][1..] == value[index + 1..];
      index := index + 1;
    }
  }

  lemma Slices(value: string, start: nat, middle: nat, end: nat)
    requires start <= middle <= end <= |value|
    ensures value[start..][..middle - start] == value[start..middle]
    ensures value[start..][middle - start..] == value[middle..]
    ensures value[middle..][..end - middle] == value[middle..end]
    ensures value[middle..][end - middle..] == value[end..]
  {
  }
}
