/**
  The static arithmetic of the thermometer panel: clamping (`limit`), linear
  range mapping (`map`), the Celsius/Fahrenheit conversions, the rounding that
  derives the Fahrenheit label bounds, the mercury fill fraction, and the
  values visited by the descending decade-label loops.

  Java's `double` is modelled as `real`: the properties here are about
  clamping, ordering and rounding, not about floating-point error.
*/
module Scale {

  function Abs(x: real): real {
    if x < 0.0 then -x else x
  }

  function Min(a: real, b: real): real {
    if a <= b then a else b
  }

  function Max(a: real, b: real): real {
    if a >= b then a else b
  }

  /** `limit`: clamps `value` into [lo, hi], computed as min(max(value, lo), hi).
      With an empty range (hi < lo) the outer `min` wins and the result is hi. */
  function Limit(value: real, lo: real, hi: real): (r: real)
    ensures r <= hi
    ensures lo <= hi ==> lo <= r
    ensures lo <= value <= hi ==> r == value
    ensures lo <= hi && value < lo ==> r == lo
    ensures hi < value ==> r == hi
    ensures hi < lo ==> r == hi
  {
    Min(Max(value, lo), hi)
  }

  /** Clamping twice is clamping once. */
  lemma LimitIdempotent(value: real, lo: real, hi: real)
    ensures Limit(Limit(value, lo, hi), lo, hi) == Limit(value, lo, hi)
  {
  }

  /** Clamping into an interval that contains `p` never moves a value
      further away from `p`. */
  lemma LimitNonExpansive(value: real, lo: real, hi: real, p: real)
    requires lo <= p <= hi
    ensures Abs(Limit(value, lo, hi) - p) <= Abs(value - p)
  {
  }

  /** Clamping preserves order. */
  lemma LimitMonotone(a: real, b: real, lo: real, hi: real)
    requires a <= b
    ensures Limit(a, lo, hi) <= Limit(b, lo, hi)
  {
  }

  /** Division of zero and of a number by itself. */
  lemma DivSelf(d: real)
    requires d != 0.0
    ensures d / d == 1.0 && 0.0 / d == 0.0
  {
  }

  /** `map`: sends `value` from the range [start1, stop1] to the range
      [start2, stop2] by the affine map that matches the endpoints. */
  function Map(value: real, start1: real, stop1: real, start2: real, stop2: real): (r: real)
    requires start1 != stop1
    ensures value == start1 ==> r == start2
    ensures value == stop1 ==> r == stop2
  {
    var share := (value - start1) / (stop1 - start1);
    DivSelf(stop1 - start1);
    share * (stop2 - start2) + start2
  }

  /** Proportionality: the position of the result inside the second range,
      as a share of its width, is the position of `value` inside the first. */
  lemma MapProportional(value: real, start1: real, stop1: real, start2: real, stop2: real)
    requires start1 != stop1
    ensures (Map(value, start1, stop1, start2, stop2) - start2) * (stop1 - start1)
         == (value - start1) * (stop2 - start2)
  {
    var q := (value - start1) / (stop1 - start1);
    assert q * (stop1 - start1) == value - start1;
    calc {
      (Map(value, start1, stop1, start2, stop2) - start2) * (stop1 - start1);
      q * (stop2 - start2) * (stop1 - start1);
      (q * (stop1 - start1)) * (stop2 - start2);
    }
  }

  /** A value inside the first range lands inside the second. */
  lemma MapInRange(value: real, start1: real, stop1: real, start2: real, stop2: real)
    requires start1 < stop1 && start2 <= stop2
    requires start1 <= value <= stop1
    ensures start2 <= Map(value, start1, stop1, start2, stop2) <= stop2
  {
    var d, w := stop1 - start1, stop2 - start2;
    var q := (value - start1) / d;
    assert q * d == value - start1;
    assert 0.0 <= q;
    assert (1.0 - q) * d == stop1 - value;
    assert q <= 1.0;
    assert 0.0 <= q * w;
    assert q * w <= w by {
      assert (1.0 - q) * w >= 0.0;
    }
  }

  /** Mapping back with the ranges swapped undoes the map. */
  lemma MapInverse(value: real, start1: real, stop1: real, start2: real, stop2: real)
    requires start1 != stop1 && start2 != stop2
    ensures Map(Map(value, start1, stop1, start2, stop2), start2, stop2, start1, stop1) == value
  {
    var m := Map(value, start1, stop1, start2, stop2);
    MapProportional(value, start1, stop1, start2, stop2);
    MapProportional(m, start2, stop2, start1, stop1);
    var back := Map(m, start2, stop2, start1, stop1);
    // (back - start1) * (stop2 - start2) == (m - start2) * (stop1 - start1)
    //                                    == (value - start1) * (stop2 - start2)
    assert (back - start1) * (stop2 - start2) == (value - start1) * (stop2 - start2);
    assert (back - value) * (stop2 - start2) == 0.0;
  }

  /** `convertToFahrenheit`: 1.8 c + 32. */
  function ToFahrenheit(c: int): (f: real)
    ensures 5.0 * f == 9.0 * c as real + 160.0
  {
    1.8 * c as real + 32.0
  }

  /** `convertToCelsius`: 5 (f - 32) / 9. */
  function ToCelsius(f: int): (c: real)
    ensures 9.0 * c == 5.0 * (f - 32) as real
  {
    5.0 * (f - 32) as real / 9.0
  }

  /** The two conversions are inverse and order-preserving: a Fahrenheit
      reading lies above a Celsius reading on one scale exactly when it does
      on the other. */
  lemma ConversionOrder(c: int, f: int)
    ensures ToFahrenheit(c) <= f as real <==> c as real <= ToCelsius(f)
    ensures f as real <= ToFahrenheit(c) <==> ToCelsius(f) <= c as real
  {
  }

  /** `Math.floor`. */
  function Floor(x: real): (r: int)
    ensures r as real <= x < r as real + 1.0
  {
    x.Floor
  }

  /** `Math.ceil`. */
  function Ceil(x: real): (r: int)
    ensures r as real - 1.0 < x <= r as real
  {
    -((-x).Floor)
  }

  /** `MIN_FAHRENHEIT`: the converted minimum rounded UP to a multiple of ten,
      so that it is not below the converted minimum. */
  function MinFahrenheit(minCelsius: int): (r: int)
    ensures r % 10 == 0
    ensures ToFahrenheit(minCelsius) <= r as real < ToFahrenheit(minCelsius) + 10.0
  {
    10 * Ceil(ToFahrenheit(minCelsius) / 10.0)
  }

  /** `MAX_FAHRENHEIT`: the converted maximum rounded DOWN to a multiple of
      ten, so that it is not above the converted maximum. */
  function MaxFahrenheit(maxCelsius: int): (r: int)
    ensures r % 10 == 0
    ensures ToFahrenheit(maxCelsius) - 10.0 < r as real <= ToFahrenheit(maxCelsius)
  {
    10 * Floor(ToFahrenheit(maxCelsius) / 10.0)
  }

  /** An independent integer-only definition of the Fahrenheit bounds:
      1.8 c + 32 = (9 c + 160) / 5, so the bound in tens is that divided by 50,
      rounded up for the minimum and down for the maximum. */
  lemma FahrenheitBoundsExact(c: int)
    ensures MinFahrenheit(c) == 10 * ((9 * c + 209) / 50)
    ensures MaxFahrenheit(c) == 10 * ((9 * c + 160) / 50)
  {
    var n := 9 * c + 160;
    var up := (n + 49) / 50;
    var down := n / 50;
    assert 50 * down <= n < 50 * down + 50;
    assert 50 * up - 49 <= n < 50 * up + 1;
    assert ToFahrenheit(c) / 10.0 == n as real / 50.0;
    assert Ceil(ToFahrenheit(c) / 10.0) == up by {
      var k := Ceil(ToFahrenheit(c) / 10.0);
      assert (50 * k) as real - 50.0 < n as real <= (50 * k) as real;
      assert 50 * k - 50 < n <= 50 * k;
    }
    assert Floor(ToFahrenheit(c) / 10.0) == down by {
      var k := Floor(ToFahrenheit(c) / 10.0);
      assert (50 * k) as real <= n as real < (50 * k) as real + 50.0;
      assert 50 * k <= n < 50 * k + 50;
    }
  }

  /** The Fahrenheit label range, converted back to Celsius, lies inside the
      Celsius range, and each bound is less than one Fahrenheit decade
      (50/9 degrees Celsius) inside its Celsius bound. */
  lemma FahrenheitBoundsContained(minCelsius: int, maxCelsius: int)
    ensures minCelsius as real <= ToCelsius(MinFahrenheit(minCelsius))
    ensures 9.0 * ToCelsius(MinFahrenheit(minCelsius)) < 9.0 * minCelsius as real + 50.0
    ensures ToCelsius(MaxFahrenheit(maxCelsius)) <= maxCelsius as real
    ensures 9.0 * maxCelsius as real - 50.0 < 9.0 * ToCelsius(MaxFahrenheit(maxCelsius))
  {
    ConversionOrder(minCelsius, MinFahrenheit(minCelsius));
    ConversionOrder(maxCelsius, MaxFahrenheit(maxCelsius));
  }

  /** The share of the mercury column that is filled: the temperature clamped
      into the Celsius range, as a fraction of that range. */
  function FillFraction(temperature: real, minCelsius: int, maxCelsius: int): (r: real)
    requires minCelsius != maxCelsius
    ensures minCelsius < maxCelsius ==> 0.0 <= r <= 1.0
    ensures minCelsius < maxCelsius && temperature <= minCelsius as real ==> r == 0.0
    ensures maxCelsius as real <= temperature ==> r == 1.0
    ensures maxCelsius < minCelsius ==> r == 1.0
    ensures minCelsius as real <= temperature <= maxCelsius as real ==>
              r * (maxCelsius - minCelsius) as real == temperature - minCelsius as real
  {
    DivSelf((maxCelsius - minCelsius) as real);
    (Limit(temperature, minCelsius as real, maxCelsius as real) - minCelsius as real)
      / (maxCelsius - minCelsius) as real
  }

  /** A warmer temperature never shows less mercury. */
  lemma FillFractionMonotone(t1: real, t2: real, minCelsius: int, maxCelsius: int)
    requires minCelsius < maxCelsius && t1 <= t2
    ensures FillFraction(t1, minCelsius, maxCelsius) <= FillFraction(t2, minCelsius, maxCelsius)
  {
    LimitMonotone(t1, t2, minCelsius as real, maxCelsius as real);
    var d := (maxCelsius - minCelsius) as real;
    var a := Limit(t1, minCelsius as real, maxCelsius as real) - minCelsius as real;
    var b := Limit(t2, minCelsius as real, maxCelsius as real) - minCelsius as real;
    assert a / d * d == a && b / d * d == b;
    assert (b / d - a / d) * d == b - a;
  }

  /** The label values visited by `for (i = hi; i >= lo; i -= 10)`. */
  function DecadeLabels(hi: int, lo: int): (r: seq<int>)
    ensures hi < lo <==> r == []
    ensures r != [] ==> r[0] == hi
    decreases hi - lo + 10
  {
    if hi < lo then [] else [hi] + DecadeLabels(hi - 10, lo)
  }

  /** The loop visits hi, hi - 10, ... while the value is at least lo:
      floor((hi - lo) / 10) + 1 values when hi >= lo, none otherwise, and
      the last one is less than ten above lo. */
  lemma {:induction false} DecadeLabelsShape(hi: int, lo: int)
    ensures |DecadeLabels(hi, lo)| == if hi < lo then 0 else (hi - lo) / 10 + 1
    ensures forall k :: 0 <= k < |DecadeLabels(hi, lo)| ==>
              DecadeLabels(hi, lo)[k] == hi - 10 * k && lo <= DecadeLabels(hi, lo)[k]
    ensures DecadeLabels(hi, lo) != [] ==> DecadeLabels(hi, lo)[|DecadeLabels(hi, lo)| - 1] < lo + 10
    decreases hi - lo + 10
  {
    if hi >= lo {
      DecadeLabelsShape(hi - 10, lo);
      var rest := DecadeLabels(hi - 10, lo);
      assert DecadeLabels(hi, lo) == [hi] + rest;
      if hi - 10 < lo {
        assert (hi - lo) / 10 == 0;
      } else {
        assert (hi - 10 - lo) / 10 + 1 == (hi - lo) / 10;
      }
      forall k | 0 < k < |DecadeLabels(hi, lo)|
        ensures DecadeLabels(hi, lo)[k] == hi - 10 * k
      {
        assert DecadeLabels(hi, lo)[k] == rest[k - 1];
      }
    }
  }

  /** The labels strictly descend. */
  lemma DecadeLabelsDescending(hi: int, lo: int, j: int, k: int)
    requires 0 <= j < k < |DecadeLabels(hi, lo)|
    ensures DecadeLabels(hi, lo)[k] < DecadeLabels(hi, lo)[j]
  {
    DecadeLabelsShape(hi, lo);
  }

  /** Every Fahrenheit label is a multiple of ten whose Celsius value lies
      inside the Celsius range. */
  lemma FahrenheitLabelsInRange(minCelsius: int, maxCelsius: int, k: int)
    requires 0 <= k < |DecadeLabels(MaxFahrenheit(maxCelsius), MinFahrenheit(minCelsius))|
    ensures DecadeLabels(MaxFahrenheit(maxCelsius), MinFahrenheit(minCelsius))[k] % 10 == 0
    ensures minCelsius as real <= ToCelsius(DecadeLabels(MaxFahrenheit(maxCelsius), MinFahrenheit(minCelsius))[k])
              <= maxCelsius as real
  {
    var hi, lo := MaxFahrenheit(maxCelsius), MinFahrenheit(minCelsius);
    DecadeLabelsShape(hi, lo);
    FahrenheitBoundsContained(minCelsius, maxCelsius);
    var f := DecadeLabels(hi, lo)[k];
    assert lo <= f <= hi;
    assert f == 10 * (hi / 10 - k);
  }

  /** The range -40..50 degrees Celsius that the application constructs the
      panel with: the Fahrenheit labels run from -40 to 120, giving ten
      Celsius labels and seventeen Fahrenheit labels. */
  lemma DefaultRangeLabels()
    ensures MinFahrenheit(-40) == -40 && MaxFahrenheit(50) == 120
    ensures |DecadeLabels(50, -40)| == 10 && |DecadeLabels(120, -40)| == 17
  {
    FahrenheitBoundsExact(-40);
    FahrenheitBoundsExact(50);
    DecadeLabelsShape(50, -40);
    DecadeLabelsShape(120, -40);
  }
}
