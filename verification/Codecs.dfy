/**
 The two numeric codecs of `model/codecs.py` whose two directions are not literal inverses, in exact
 arithmetic. An encoder returns the number whose decimal text is sent.
 */
module Codecs {
  function Abs(x: real): real {
    if x < 0.0 then -x else x
  }

  /** `round` to an integer: to the nearest, and on a tie to the even neighbour. */
  function Round(x: real): int {
    var below := x.Floor;
    var part := x - below as real;
    if part < 0.5 || (part == 0.5 && below % 2 == 0) then below else below + 1
  }

  function Clamp(x: real, low: real, high: real): real {
    if x < low then low else if x > high then high else x
  }

  lemma RoundIsNear(x: real)
    ensures Abs(Round(x) as real - x) <= 0.5
  {
  }

  lemma RoundFinds(x: real, n: int)
    requires Abs(x - n as real) < 0.5
    ensures Round(x) == n
  {
    RoundIsNear(x);
    assert -1.0 < (Round(x) - n) as real < 1.0;
  }

  lemma RoundIsMonotone(x: real, y: real)
    requires x <= y
    ensures Round(x) <= Round(y)
  {
    assert x.Floor <= y.Floor;
  }

  /** A tie goes to the even neighbour. */
  lemma TiesGoToEven(n: int)
    ensures Round(n as real + 0.5) == if n % 2 == 0 then n else n + 1
  {
    assert (n as real + 0.5).Floor == n;
  }

  // ---------------------------------------------------------------- products and quotients

  lemma ProductIsPositive(a: real, b: real)
    requires a > 0.0 && b > 0.0
    ensures a * b > 0.0
  {
  }

  lemma NegatedProduct(a: real, b: real)
    ensures (-a) * b == -(a * b)
  {
  }

  lemma SameOrder(c: real, a: real, b: real)
    requires c > 0.0
    ensures a < b <==> c * a < c * b
  {
    assert c * (b - a) == c * b - c * a;
    if a < b {
      ProductIsPositive(c, b - a);
    } else if b < a {
      ProductIsPositive(c, a - b);
    }
  }

  lemma AbsOfProduct(a: real, b: real)
    ensures Abs(a * b) == Abs(a) * Abs(b)
  {
    if a != 0.0 && b != 0.0 {
      ProductIsPositive(Abs(a), Abs(b));
    }
    assert (-a) * b == -(a * b) && a * (-b) == -(a * b) && (-a) * (-b) == a * b;
  }

  lemma ProductIsSmall(a: real, b: real, bound: real)
    requires Abs(b) <= bound
    ensures Abs(a * b) <= Abs(a) * bound
  {
    AbsOfProduct(a, b);
    if a != 0.0 {
      SameOrder(Abs(a), bound, Abs(b));
    }
  }

  lemma QuotientBound(a: real, b: real, c: real)
    requires c > 0.0 && c * a <= b
    ensures a <= b / c
  {
    assert c * (b / c) == b;
    SameOrder(c, b / c, a);
  }

  lemma QuotientIsNear(x: real, p: real, units: real)
    requires p > 0.0 && Abs(units - x * p) <= 0.5
    ensures Abs(units / p - x) <= 0.5 / p
  {
    var error := units / p - x;
    assert p * (units / p) == units;
    assert p * error == units - x * p;
    AbsOfProduct(p, error);
    QuotientBound(Abs(error), 0.5, p);
  }

  lemma Triangle(a: real, b: real, c: real, ab: real, bc: real)
    requires Abs(a - b) <= ab && Abs(b - c) <= bc
    ensures Abs(a - c) <= ab + bc
  {
  }

  // ---------------------------------------------------------------- colour temperature

  datatype ColorTemp = ColorTemp(warmest: real, coolest: real) {
    function Span(): real {
      coolest - warmest
    }

    /** The temperature a percentage stands for, before rounding. */
    function Exact(percent: real): real {
      warmest + Span() * percent / 100.0
    }

    function Decode(percent: real): int {
      Round(Exact(Clamp(percent, 0.0, 100.0)))
    }

    function Encode(kelvin: real): int {
      var percent := if Span() != 0.0 then (kelvin - warmest) / Span() * 100.0 else 0.0;
      Round(Clamp(percent, 0.0, 100.0))
    }

    /** The nearest temperature the light can show. */
    function Reachable(kelvin: real): real {
      if warmest <= coolest then Clamp(kelvin, warmest, coolest) else Clamp(kelvin, coolest, warmest)
    }
  }

  lemma ExactMoves(t: ColorTemp, p: real, q: real)
    ensures 100.0 * (t.Exact(q) - t.Exact(p)) == t.Span() * (q - p)
  {
    assert t.Span() * (q - p) == t.Span() * q - t.Span() * p;
  }

  lemma ShareOfSpan(t: ColorTemp, kelvin: real) returns (share: real)
    requires t.Span() != 0.0
    ensures share == (kelvin - t.warmest) / t.Span() && t.Span() * share == kelvin - t.warmest
    ensures t.warmest + t.Span() * Clamp(share, 0.0, 1.0) == t.Reachable(kelvin)
  {
    share := (kelvin - t.warmest) / t.Span();
    assert t.Span() * share == kelvin - t.warmest;
    var size := Abs(t.Span());
    assert size * share == if t.Span() > 0.0 then kelvin - t.warmest else t.warmest - kelvin;
    SameOrder(size, share, 0.0);
    SameOrder(size, 1.0, share);
  }

  lemma Hundredths(x: real, part: real)
    ensures x * (part * 100.0) / 100.0 == x * part
  {
  }

  lemma ClampScales(x: real)
    ensures Clamp(x * 100.0, 0.0, 100.0) == Clamp(x, 0.0, 1.0) * 100.0 && 0.0 <= Clamp(x, 0.0, 1.0) <= 1.0
  {
  }

  lemma ExactOfPart(t: ColorTemp, part: real)
    ensures t.Exact(part * 100.0) == t.warmest + t.Span() * part
  {
    Hundredths(t.Span(), part);
  }

  /** The percentage that is sent before rounding stands for the reachable temperature itself. */
  lemma PercentOfKelvin(t: ColorTemp, kelvin: real) returns (percent: real)
    ensures 0.0 <= percent <= 100.0 && t.Encode(kelvin) == Round(percent)
    ensures t.Exact(percent) == t.Reachable(kelvin)
  {
    percent := 0.0;
    if t.Span() != 0.0 {
      hide ColorTemp.Exact, ColorTemp.Reachable, Round, Clamp;
      var share := ShareOfSpan(t, kelvin);
      var part := Clamp(share, 0.0, 1.0);
      ClampScales(share);
      percent := part * 100.0;
      ExactOfPart(t, part);
    }
  }

  lemma RoundOfPercent(percent: real)
    requires 0.0 <= percent <= 100.0
    ensures 0 <= Round(percent) <= 100
  {
    RoundFinds(0.0, 0);
    RoundFinds(100.0, 100);
    RoundIsMonotone(0.0, percent);
    RoundIsMonotone(percent, 100.0);
  }

  lemma ExactIsNear(t: ColorTemp, p: real, q: real)
    requires Abs(p - q) <= 0.5
    ensures Abs(t.Exact(p) - t.Exact(q)) <= Abs(t.Span()) / 200.0
  {
    var span, gap, step := t.Span(), t.Exact(p) - t.Exact(q), p - q;
    ExactMoves(t, q, p);
    hide t.Exact, t.Span;
    var product := span * step;
    ProductIsSmall(span, step, 0.5);
    assert 100.0 * gap == product;
    HundredthIsNear(gap, product, Abs(span));
  }

  lemma HundredthIsNear(gap: real, product: real, size: real)
    requires 100.0 * gap == product && Abs(product) <= size * 0.5
    ensures Abs(gap) <= size / 200.0
  {
  }

  lemma ExactMeans(t: ColorTemp, percent: real)
    ensures t.Exact(percent) == t.warmest + (t.coolest - t.warmest) * percent / 100.0
    ensures percent == 0.0 ==> t.Exact(percent) == t.warmest
    ensures percent == 100.0 ==> t.Exact(percent) == t.coolest
  {
    if percent == 0.0 {
      assert t.Span() * percent == 0.0;
    }
    if percent == 100.0 {
      Hundredths(t.Span(), 1.0);
    }
  }

  /** A percentage is read as the temperature at that share of the way from warmest to coolest, rounded. */
  lemma DecodeMeans(t: ColorTemp, percent: real)
    requires 0.0 <= percent <= 100.0
    ensures Abs(t.Decode(percent) as real - (t.warmest + (t.coolest - t.warmest) * percent / 100.0)) <= 0.5
    ensures percent == 0.0 ==> t.Decode(percent) == Round(t.warmest)
    ensures percent == 100.0 ==> t.Decode(percent) == Round(t.coolest)
  {
    hide Round;
    ExactMeans(t, percent);
    assert t.Decode(percent) == Round(t.Exact(percent));
    hide ColorTemp.Exact;
    RoundIsNear(t.Exact(percent));
  }

  /** What is beyond 0 or 100 percent is read as that end, and a temperature beyond a bound is sent as that end. */
  lemma EndsAreEnds(t: ColorTemp, x: real)
    ensures x <= 0.0 ==> t.Decode(x) == t.Decode(0.0)
    ensures x >= 100.0 ==> t.Decode(x) == t.Decode(100.0)
    ensures t.warmest < t.coolest ==> (x <= t.warmest ==> t.Encode(x) == 0) && (x >= t.coolest ==> t.Encode(x) == 100)
    ensures t.warmest > t.coolest ==> (x >= t.warmest ==> t.Encode(x) == 0) && (x <= t.coolest ==> t.Encode(x) == 100)
    ensures t.warmest == t.coolest ==> t.Encode(x) == 0
  {
    hide Round, ColorTemp.Exact;
    RoundFinds(0.0, 0);
    RoundFinds(100.0, 100);
    if t.Span() != 0.0 {
      var share := ShareInBounds(t, x);
      assert t.Encode(x) == Round(Clamp(share * 100.0, 0.0, 100.0));
      hide ColorTemp.Encode;
    }
  }

  /** Where a temperature lies between the bounds, as a share of the way. */
  lemma ShareInBounds(t: ColorTemp, kelvin: real) returns (share: real)
    requires t.Span() != 0.0
    ensures share == (kelvin - t.warmest) / t.Span()
    ensures t.warmest < t.coolest ==> (share < 0.0 <==> kelvin < t.warmest) && (share > 1.0 <==> kelvin > t.coolest)
    ensures t.warmest < t.coolest ==> (share > 0.0 <==> kelvin > t.warmest) && (share < 1.0 <==> kelvin < t.coolest)
    ensures t.warmest > t.coolest ==> (share < 0.0 <==> kelvin > t.warmest) && (share > 1.0 <==> kelvin < t.coolest)
    ensures t.warmest > t.coolest ==> (share > 0.0 <==> kelvin < t.warmest) && (share < 1.0 <==> kelvin > t.coolest)
  {
    hide Round;
    share := ShareOfSpan(t, kelvin);
    var size := if t.Span() > 0.0 then t.Span() else -t.Span();
    NegatedProduct(t.Span(), share);
    SameOrder(size, 0.0, share);
    SameOrder(size, share, 0.0);
    SameOrder(size, share, 1.0);
    SameOrder(size, 1.0, share);
  }

  /** A temperature within the bounds is sent as the nearest percentage. */
  lemma EncodeMeans(t: ColorTemp, kelvin: real)
    requires t.Span() != 0.0 && t.Reachable(kelvin) == kelvin
    ensures var exact := (kelvin - t.warmest) / (t.coolest - t.warmest) * 100.0;
            0.0 <= exact <= 100.0 && Abs(t.Encode(kelvin) as real - exact) <= 0.5
  {
    hide Round, ColorTemp.Exact;
    var share := ShareInBounds(t, kelvin);
    assert t.warmest < t.coolest ==> t.warmest <= kelvin <= t.coolest;
    assert t.warmest > t.coolest ==> t.coolest <= kelvin <= t.warmest;
    assert 0.0 <= share <= 1.0;
    assert t.Encode(kelvin) == Round(Clamp(share * 100.0, 0.0, 100.0));
    RoundIsNear(share * 100.0);
    hide ColorTemp.Encode;
  }

  /** A temperature sent and read back is off by half a percent of the span and half a kelvin at most. */
  lemma TemperatureRoundTrip(t: ColorTemp, kelvin: real)
    ensures Abs(t.Decode(t.Encode(kelvin) as real) as real - t.Reachable(kelvin)) <= Abs(t.Span()) / 200.0 + 0.5
  {
    var percent := PercentOfKelvin(t, kelvin);
    var sent := t.Encode(kelvin) as real;
    RoundOfPercent(percent);
    RoundIsNear(percent);
    assert t.Decode(sent) == Round(t.Exact(sent));
    RoundIsNear(t.Exact(sent));
    ExactIsNear(t, sent, percent);
    hide t.Exact, t.Decode, t.Encode, Round;
    Triangle(t.Decode(sent) as real, t.Exact(sent), t.Exact(percent), 0.5, Abs(t.Span()) / 200.0);
  }

  /** A percentage read as kelvin and sent back. */
  function BackAndForth(t: ColorTemp, percent: int): int {
    t.Encode(t.Decode(percent as real) as real)
  }

  lemma ShareIsSmall(span: real, share: real, error: real)
    requires span * share == 100.0 * error && Abs(error) <= 0.5
    requires Abs(span) > 100.0 || (span != 0.0 && error == 0.0)
    ensures Abs(share) < 0.5
  {
    AbsOfProduct(span, share);
    SameOrder(Abs(span), Abs(share), 0.5);
  }

  lemma KelvinFindsPercent(t: ColorTemp, p: real, kelvin: real, share: real)
    requires t.Span() != 0.0 && t.Span() * share == kelvin - t.warmest
    requires Abs(kelvin - t.Exact(p)) <= 0.5 && (Abs(t.Span()) > 100.0 || kelvin == t.Exact(p))
    ensures Abs(share * 100.0 - p) < 0.5
  {
    var span := t.Span();
    assert span * (share * 100.0 - p) == 100.0 * (span * share) - span * p;
    assert 100.0 * (kelvin - t.Exact(p)) == 100.0 * (span * share) - span * p;
    hide t.Exact;
    ShareIsSmall(span, share * 100.0 - p, kelvin - t.Exact(p));
  }

  lemma EncodeOfShare(t: ColorTemp, kelvin: real, share: real, percent: int)
    requires t.Span() != 0.0 && share == (kelvin - t.warmest) / t.Span()
    requires 0 <= percent <= 100 && Abs(share * 100.0 - percent as real) < 0.5
    ensures t.Encode(kelvin) == percent
  {
    var clamped := Clamp(share * 100.0, 0.0, 100.0);
    assert t.Encode(kelvin) == Round(clamped);
    RoundFinds(clamped, percent);
  }

  lemma PercentSurvives(t: ColorTemp, percent: int)
    requires 0 <= percent <= 100 && t.Span() != 0.0
    requires Abs(t.Span()) > 100.0 || Round(t.Exact(percent as real)) as real == t.Exact(percent as real)
    ensures BackAndForth(t, percent) == percent
  {
    var p := percent as real;
    var kelvin := t.Decode(p) as real;
    assert t.Decode(p) == Round(t.Exact(p));
    RoundIsNear(t.Exact(p));
    var share := ShareOfSpan(t, kelvin);
    hide t.Exact, t.Decode, t.Encode, Round;
    KelvinFindsPercent(t, p, kelvin, share);
    EncodeOfShare(t, kelvin, share, percent);
  }

  /** Over a span of more than 100 K no percentage is lost on the way to kelvin and back. */
  lemma PercentRoundTrip(t: ColorTemp, percent: int)
    requires 0 <= percent <= 100 && Abs(t.Span()) > 100.0
    ensures BackAndForth(t, percent) == percent
  {
    PercentSurvives(t, percent);
  }

  ghost predicate KeepsEveryPercent(t: ColorTemp) {
    forall p: int :: 0 <= p <= 100 ==> BackAndForth(t, p) == p
  }

  lemma DecodeIsMonotone(t: ColorTemp, p: real, q: real)
    requires 0.0 <= p < q <= 100.0
    ensures t.Span() >= 0.0 ==> t.Decode(p) <= t.Decode(q)
    ensures t.Span() <= 0.0 ==> t.Decode(p) >= t.Decode(q)
  {
    ExactMoves(t, p, q);
    if t.Span() > 0.0 {
      ProductIsPositive(t.Span(), q - p);
      RoundIsMonotone(t.Exact(p), t.Exact(q));
    } else if t.Span() < 0.0 {
      ProductIsPositive(-t.Span(), q - p);
      RoundIsMonotone(t.Exact(q), t.Exact(p));
    }
  }

  lemma DecodeSteps(t: ColorTemp, p: int)
    requires 0 <= p < 100 && KeepsEveryPercent(t)
    ensures t.Span() >= 0.0 ==> t.Decode((p + 1) as real) >= t.Decode(p as real) + 1
    ensures t.Span() < 0.0 ==> t.Decode((p + 1) as real) <= t.Decode(p as real) - 1
  {
    assert BackAndForth(t, p) != BackAndForth(t, p + 1);
    DecodeIsMonotone(t, p as real, (p + 1) as real);
  }

  lemma {:induction false} DecodeSpreads(t: ColorTemp, p: nat)
    requires p <= 100 && KeepsEveryPercent(t)
    ensures t.Span() >= 0.0 ==> t.Decode(p as real) >= t.Decode(0.0) + p
    ensures t.Span() < 0.0 ==> t.Decode(p as real) <= t.Decode(0.0) - p
  {
    if p > 0 {
      DecodeSpreads(t, p - 1);
      DecodeSteps(t, p - 1);
    }
  }

  lemma {:induction false} WholePercents(warmest: int, coolest: int, p: int)
    requires coolest - warmest == 100 || coolest - warmest == -100
    ensures var exact := ColorTemp(warmest as real, coolest as real).Exact(p as real);
            Round(exact) as real == exact
  {
    var t := ColorTemp(warmest as real, coolest as real);
    ExactMoves(t, 0.0, p as real);
    assert t.Exact(0.0) == warmest as real;
    if t.Span() == 100.0 {
      assert t.Span() * (p as real - 0.0) == 100.0 * p as real;
      RoundFinds(t.Exact(p as real), warmest + p);
    } else {
      assert t.Span() * (p as real - 0.0) == -100.0 * p as real;
      RoundFinds(t.Exact(p as real), warmest - p);
    }
  }

  lemma EndsAreWhole(warmest: int, coolest: int)
    ensures var t := ColorTemp(warmest as real, coolest as real);
            t.Decode(0.0) == warmest && t.Decode(100.0) == coolest
  {
    RoundFinds(warmest as real, warmest);
    RoundFinds(coolest as real, coolest);
  }

  /** With whole-kelvin bounds, 100 K between them is exactly what it takes to keep every percentage. */
  lemma PercentsNeedHundredKelvin(warmest: int, coolest: int)
    ensures KeepsEveryPercent(ColorTemp(warmest as real, coolest as real)) <==>
            coolest - warmest >= 100 || coolest - warmest <= -100
  {
    var t := ColorTemp(warmest as real, coolest as real);
    if KeepsEveryPercent(t) {
      DecodeSpreads(t, 100);
      EndsAreWhole(warmest, coolest);
    }
    hide t.Exact, t.Decode, t.Encode, Round;
    if coolest - warmest >= 100 || coolest - warmest <= -100 {
      forall p: int | 0 <= p <= 100 ensures BackAndForth(t, p) == p {
        if coolest - warmest == 100 || coolest - warmest == -100 {
          WholePercents(warmest, coolest, p);
        }
        PercentSurvives(t, p);
      }
    }
  }

  // ---------------------------------------------------------------- scaled values

  function Pow10(n: nat): (p: real)
    ensures p >= 1.0
  {
    if n == 0 then 1.0 else 10.0 * Pow10(n - 1)
  }

  /** `round(x, precision)`, given how many units of the last decimal make one. */
  function RoundTo(x: real, units: real): real
    requires units > 0.0
  {
    Round(x * units) as real / units
  }

  datatype Scaled = Scaled(factor: real, offset: real, precision: nat) {
    function Units(): (units: real)
      ensures units >= 1.0
    {
      Pow10(precision)
    }

    function Meant(sent: real): real {
      sent * factor + offset
    }

    function Decode(sent: real): real {
      RoundTo(Meant(sent), Units())
    }

    function Encode(value: real): real
      requires factor != 0.0
    {
      RoundTo((value - offset) / factor, Units())
    }
  }

  lemma RoundToIsNear(x: real, units: real)
    requires units > 0.0
    ensures Abs(RoundTo(x, units) - x) <= 0.5 / units
  {
    RoundIsNear(x * units);
    QuotientIsNear(x, units, Round(x * units) as real);
  }

  lemma EncodeAsQuotient(s: Scaled, value: real) returns (exact: real)
    requires s.factor != 0.0
    ensures s.Encode(value) == RoundTo(exact, s.Units()) && s.factor * exact == value - s.offset
  {
    exact := (value - s.offset) / s.factor;
  }

  /** What is sent for a value stands for that value up to the rounding of one step. */
  lemma SentIsNear(s: Scaled, value: real)
    requires s.factor != 0.0
    ensures Abs(s.Meant(s.Encode(value)) - value) <= Abs(s.factor) * (0.5 / s.Units())
  {
    var exact := EncodeAsQuotient(s, value);
    RoundToIsNear(exact, s.Units());
    hide *;
    ErrorIsScaled(s, value, exact, s.Encode(value), 0.5 / s.Units());
  }

  lemma ErrorIsScaled(s: Scaled, value: real, exact: real, sent: real, half: real)
    requires s.factor * exact == value - s.offset && Abs(sent - exact) <= half
    ensures Abs(s.Meant(sent) - value) <= Abs(s.factor) * half
  {
    ProductIsSmall(s.factor, sent - exact, half);
    assert s.factor * (sent - exact) == sent * s.factor - s.factor * exact;
  }

  /** A value sent and read back is off by (|factor| + 1) / 2 units of the last decimal at most. */
  lemma {:induction false} ScaledRoundTrip(s: Scaled, value: real)
    requires s.factor != 0.0
    ensures Abs(s.Decode(s.Encode(value)) - value) <= (Abs(s.factor) + 1.0) * (0.5 / s.Units())
  {
    SentIsNear(s, value);
    var meant := s.Meant(s.Encode(value));
    RoundToIsNear(meant, s.Units());
    assert s.Decode(s.Encode(value)) == RoundTo(meant, s.Units());
    hide s.Meant, s.Decode, s.Encode, s.Units;
    var half := 0.5 / s.Units();
    Triangle(s.Decode(s.Encode(value)), meant, value, half, Abs(s.factor) * half);
    assert (Abs(s.factor) + 1.0) * half == Abs(s.factor) * half + half;
  }

  lemma NearTheGrid(meant: real, value: real, p: real, units: real, size: real)
    requires p > 0.0 && value == units / p && 0.0 < size < 1.0
    requires Abs(meant - value) <= size * (0.5 / p)
    ensures Abs(meant * p - units) < 0.5
  {
    var half, error := 0.5 / p, meant - value;
    assert p * value == units && p * half == 0.5;
    SameOrder(half, size, 1.0);
    SameOrder(p, Abs(error), half);
    AbsOfProduct(p, error);
    assert p * error == meant * p - p * value;
  }

  lemma {:induction false} RoundToFinds(x: real, units: real, n: int)
    requires units > 0.0 && Abs(x * units - n as real) < 0.5
    ensures RoundTo(x, units) == n as real / units
  {
    RoundFinds(x * units, n);
  }

  /** When the wire resolves more than the attribute, a value of that precision comes back unchanged. */
  lemma {:induction false} FineScaleIsExact(s: Scaled, n: int)
    requires 0.0 < Abs(s.factor) < 1.0
    ensures s.Decode(s.Encode(n as real / s.Units())) == n as real / s.Units()
  {
    var units := s.Units();
    var value := n as real / units;
    SentIsNear(s, value);
    var meant := s.Meant(s.Encode(value));
    assert s.Decode(s.Encode(value)) == RoundTo(meant, units);
    hide *;
    NearTheGrid(meant, value, units, n as real, Abs(s.factor));
    RoundToFinds(meant, units, n);
  }

  /** Reading: scaled, shifted, and rounded to the decimals of the attribute. */
  lemma ScaledDecodeMeans(s: Scaled, sent: real) returns (n: int)
    ensures Abs(s.Decode(sent) - (sent * s.factor + s.offset)) <= 0.5 / Pow10(s.precision)
    ensures s.Decode(sent) * Pow10(s.precision) == n as real
  {
    hide Round, RoundTo, Pow10;
    RoundToIsNear(s.Meant(sent), Pow10(s.precision));
    n := RoundToIsWhole(s.Meant(sent), Pow10(s.precision));
  }

  /** Sending: the other way round, to as many decimals. */
  lemma ScaledEncodeMeans(s: Scaled, value: real) returns (n: int)
    requires s.factor != 0.0
    ensures Abs(s.Encode(value) * s.factor + s.offset - value) <= Abs(s.factor) * (0.5 / Pow10(s.precision))
    ensures s.Encode(value) * Pow10(s.precision) == n as real
  {
    hide Round, RoundTo, Pow10;
    SentIsNear(s, value);
    var exact := EncodeAsQuotient(s, value);
    n := RoundToIsWhole(exact, Pow10(s.precision));
    hide Scaled.Encode;
  }

  lemma RoundToIsWhole(x: real, units: real) returns (n: int)
    requires units > 0.0
    ensures RoundTo(x, units) * units == n as real
  {
    hide Round;
    n := Round(x * units);
  }
}
