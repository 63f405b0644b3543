/**
  The geometry the panel derives from its size and its Celsius range: the
  body rectangle, the spacing between decade labels on both scales, the
  Fahrenheit offsets, and the label rows drawn by the two decade loops.

  Pixel coordinates are kept as `real`: the `(int)` truncations of the
  drawing code are not modelled. Offsets are measured downward from the top
  of the mercury column, whose height is a parameter.
*/
module Layout {
  import opened Scale

  datatype Rect = Rect(x: real, y: real, width: real, height: real)

  /** Proportional distance of the body from the edge of the panel. */
  const Margin: real := 0.05
  /** Width to height ratio of the body. */
  const Ratio: real := 0.5

  /** The body rectangle: sized from the width when the width is the
      restricting dimension, from the height otherwise. */
  function Body(panelWidth: real, panelHeight: real): (r: Rect)
    requires 0.0 <= panelWidth && 0.0 <= panelHeight
    ensures 0.0 <= r.x && 0.0 <= r.y && 0.0 <= r.width && 0.0 <= r.height
    ensures r.x + r.width <= panelWidth && r.y + r.height <= panelHeight
  {
    if panelWidth < panelHeight * Ratio then
      Rect(panelWidth * Margin,
           panelWidth * Margin,
           panelWidth - 2.0 * Margin * panelWidth,
           (panelWidth - 2.0 * Margin * panelWidth) / Ratio)
    else
      Rect(panelHeight * Ratio * Margin,
           panelHeight * Ratio * Margin,
           panelHeight * Ratio - 2.0 * Margin * panelHeight * Ratio,
           panelHeight - 2.0 * Margin * panelHeight * Ratio)
  }

  /** When the width restricts, the body keeps the 1:2 ratio and spans 90% of
      the width; when the height restricts, the body spans 95% of the height
      and its sides stand in the ratio 9:19, not 1:2. */
  lemma BodyProportions(panelWidth: real, panelHeight: real)
    requires 0.0 <= panelWidth && 0.0 <= panelHeight
    ensures panelWidth < panelHeight * Ratio ==>
              Body(panelWidth, panelHeight).height == 2.0 * Body(panelWidth, panelHeight).width
              && Body(panelWidth, panelHeight).width == 0.9 * panelWidth
    ensures panelHeight * Ratio <= panelWidth ==>
              19.0 * Body(panelWidth, panelHeight).width == 9.0 * Body(panelWidth, panelHeight).height
              && Body(panelWidth, panelHeight).height == 0.95 * panelHeight
  {
  }

  /** The distance below the top of a mercury column of height
      `mercuryHeight` at which the Celsius value `c` lies: zero at the maximum,
      the full height at the minimum. */
  function ScaleOffset(c: real, minCelsius: int, maxCelsius: int, mercuryHeight: real): (r: real)
    requires minCelsius != maxCelsius
    ensures c == maxCelsius as real ==> r == 0.0
    ensures c == minCelsius as real ==> r == mercuryHeight
  {
    (maxCelsius as real - c) / (maxCelsius - minCelsius) as real * mercuryHeight
  }

  /** `celsiusSpacing`: the column height divided by the number of Celsius
      decades in the range. */
  function CelsiusSpacing(minCelsius: int, maxCelsius: int, mercuryHeight: real): (r: real)
    requires minCelsius != maxCelsius
    ensures r * (maxCelsius - minCelsius) as real == 10.0 * mercuryHeight
  {
    var decades := (maxCelsius - minCelsius) as real / 10.0;
    assert mercuryHeight / decades * decades == mercuryHeight;
    mercuryHeight / decades
  }

  /** `fahrenheitLeadingOffset`: what rounding took off the top of the range,
      in Celsius, mapped from one Celsius decade to one Celsius spacing. */
  function LeadingOffset(minCelsius: int, maxCelsius: int, mercuryHeight: real): (r: real)
    requires minCelsius != maxCelsius
    ensures 10.0 * r == (maxCelsius as real - ToCelsius(MaxFahrenheit(maxCelsius)))
                        * CelsiusSpacing(minCelsius, maxCelsius, mercuryHeight)
  {
    MapProportional(maxCelsius as real - ToCelsius(MaxFahrenheit(maxCelsius)), 0.0, 10.0,
                    0.0, CelsiusSpacing(minCelsius, maxCelsius, mercuryHeight));
    Map(maxCelsius as real - ToCelsius(MaxFahrenheit(maxCelsius)), 0.0, 10.0,
        0.0, CelsiusSpacing(minCelsius, maxCelsius, mercuryHeight))
  }

  /** `fahrenheitTrailingOffset`: what rounding took off the bottom of the
      range, mapped the same way. */
  function TrailingOffset(minCelsius: int, maxCelsius: int, mercuryHeight: real): (r: real)
    requires minCelsius != maxCelsius
    ensures 10.0 * r == (ToCelsius(MinFahrenheit(minCelsius)) - minCelsius as real)
                        * CelsiusSpacing(minCelsius, maxCelsius, mercuryHeight)
  {
    MapProportional(ToCelsius(MinFahrenheit(minCelsius)) - minCelsius as real, 0.0, 10.0,
                    0.0, CelsiusSpacing(minCelsius, maxCelsius, mercuryHeight));
    Map(ToCelsius(MinFahrenheit(minCelsius)) - minCelsius as real, 0.0, 10.0,
        0.0, CelsiusSpacing(minCelsius, maxCelsius, mercuryHeight))
  }

  /** `fahrenheitSpacing`: the column height less both offsets, divided by the
      number of Fahrenheit decades between the Fahrenheit bounds. */
  function FahrenheitSpacing(minCelsius: int, maxCelsius: int, mercuryHeight: real): (r: real)
    requires minCelsius != maxCelsius
    requires MinFahrenheit(minCelsius) != MaxFahrenheit(maxCelsius)
    ensures r * (MaxFahrenheit(maxCelsius) - MinFahrenheit(minCelsius)) as real
         == 10.0 * (mercuryHeight - (LeadingOffset(minCelsius, maxCelsius, mercuryHeight)
                                     + TrailingOffset(minCelsius, maxCelsius, mercuryHeight)))
  {
    var remaining := mercuryHeight - (LeadingOffset(minCelsius, maxCelsius, mercuryHeight)
                                      + TrailingOffset(minCelsius, maxCelsius, mercuryHeight));
    var decades := (MaxFahrenheit(maxCelsius) - MinFahrenheit(minCelsius)) as real / 10.0;
    assert remaining / decades * decades == remaining;
    remaining / decades
  }

  /** The k-th Celsius label, drawn k spacings below the top, sits exactly at
      the position of its value on the scale. */
  lemma CelsiusLabelAligned(minCelsius: int, maxCelsius: int, mercuryHeight: real, k: int)
    requires minCelsius != maxCelsius
    ensures k as real * CelsiusSpacing(minCelsius, maxCelsius, mercuryHeight)
         == ScaleOffset((maxCelsius - 10 * k) as real, minCelsius, maxCelsius, mercuryHeight)
  {
    var d := (maxCelsius - minCelsius) as real;
    var u := mercuryHeight / d;
    assert u * d == mercuryHeight;
    assert CelsiusSpacing(minCelsius, maxCelsius, mercuryHeight) == 10.0 * u by {
      assert (10.0 * u) * (d / 10.0) == mercuryHeight;
    }
    assert ScaleOffset((maxCelsius - 10 * k) as real, minCelsius, maxCelsius, mercuryHeight)
        == (10 * k) as real * u by {
      var q := (10 * k) as real / d;
      assert q * d == (10 * k) as real;
      assert q * mercuryHeight == q * (u * d) == (q * d) * u;
    }
  }

  /** The offset of the Celsius value `c`, divided into a multiple of one
      Celsius spacing. */
  lemma ScaleOffsetBySpacing(c: real, minCelsius: int, maxCelsius: int, mercuryHeight: real)
    requires minCelsius != maxCelsius
    ensures ScaleOffset(c, minCelsius, maxCelsius, mercuryHeight)
         == (maxCelsius as real - c) / 10.0 * CelsiusSpacing(minCelsius, maxCelsius, mercuryHeight)
  {
    var d := (maxCelsius - minCelsius) as real;
    var u := mercuryHeight / d;
    assert u * d == mercuryHeight;
    assert CelsiusSpacing(minCelsius, maxCelsius, mercuryHeight) == 10.0 * u by {
      assert (10.0 * u) * (d / 10.0) == mercuryHeight;
    }
    var q := (maxCelsius as real - c) / d;
    assert q * d == maxCelsius as real - c;
    assert q * mercuryHeight == q * (u * d) == (q * d) * u;
  }

  /** The leading offset is the scale position of the largest Fahrenheit
      label, and the trailing offset the distance of the smallest one above
      the bottom. */
  lemma OffsetsAligned(minCelsius: int, maxCelsius: int, mercuryHeight: real)
    requires minCelsius != maxCelsius
    ensures LeadingOffset(minCelsius, maxCelsius, mercuryHeight)
         == ScaleOffset(ToCelsius(MaxFahrenheit(maxCelsius)), minCelsius, maxCelsius, mercuryHeight)
    ensures mercuryHeight - TrailingOffset(minCelsius, maxCelsius, mercuryHeight)
         == ScaleOffset(ToCelsius(MinFahrenheit(minCelsius)), minCelsius, maxCelsius, mercuryHeight)
  {
    var cs := CelsiusSpacing(minCelsius, maxCelsius, mercuryHeight);
    ScaleOffsetBySpacing(ToCelsius(MaxFahrenheit(maxCelsius)), minCelsius, maxCelsius, mercuryHeight);
    ScaleOffsetBySpacing(ToCelsius(MinFahrenheit(minCelsius)), minCelsius, maxCelsius, mercuryHeight);
    ScaleOffsetBySpacing(minCelsius as real, minCelsius, maxCelsius, mercuryHeight);
  }

  /** Both offsets lie between zero and one Fahrenheit decade (5/9 of a
      Celsius spacing). */
  lemma OffsetsBounded(minCelsius: int, maxCelsius: int, mercuryHeight: real)
    requires minCelsius < maxCelsius && 0.0 <= mercuryHeight
    ensures 0.0 <= LeadingOffset(minCelsius, maxCelsius, mercuryHeight)
    ensures 9.0 * LeadingOffset(minCelsius, maxCelsius, mercuryHeight)
         <= 5.0 * CelsiusSpacing(minCelsius, maxCelsius, mercuryHeight)
    ensures 0.0 <= TrailingOffset(minCelsius, maxCelsius, mercuryHeight)
    ensures 9.0 * TrailingOffset(minCelsius, maxCelsius, mercuryHeight)
         <= 5.0 * CelsiusSpacing(minCelsius, maxCelsius, mercuryHeight)
  {
    FahrenheitBoundsContained(minCelsius, maxCelsius);
    var cs := CelsiusSpacing(minCelsius, maxCelsius, mercuryHeight);
    assert 0.0 <= cs;
    DecadeShare(maxCelsius as real - ToCelsius(MaxFahrenheit(maxCelsius)), cs);
    DecadeShare(ToCelsius(MinFahrenheit(minCelsius)) - minCelsius as real, cs);
  }

  /** A Celsius distance of at most one Fahrenheit decade (50/9 degrees)
      maps to at most 5/9 of a Celsius spacing. */
  lemma DecadeShare(distance: real, spacing: real)
    requires 0.0 <= distance && 9.0 * distance <= 50.0 && 0.0 <= spacing
    ensures 0.0 <= Map(distance, 0.0, 10.0, 0.0, spacing)
    ensures 9.0 * Map(distance, 0.0, 10.0, 0.0, spacing) <= 5.0 * spacing
  {
    var q := distance / 10.0;
    assert Map(distance, 0.0, 10.0, 0.0, spacing) == q * spacing;
    assert 0.0 <= q && 9.0 * q <= 5.0;
    var slack := 5.0 - 9.0 * q;
    assert 0.0 <= slack;
    assert 0.0 <= slack * spacing;
    assert slack * spacing == 5.0 * spacing - 9.0 * (q * spacing);
  }

  /** In exact arithmetic one Fahrenheit decade takes 5/9 of a Celsius
      spacing: the spacing the panel derives from the rounded bounds and the
      two offsets is the true one. */
  lemma FahrenheitSpacingExact(minCelsius: int, maxCelsius: int, mercuryHeight: real)
    requires minCelsius != maxCelsius
    requires MinFahrenheit(minCelsius) != MaxFahrenheit(maxCelsius)
    ensures 9.0 * FahrenheitSpacing(minCelsius, maxCelsius, mercuryHeight)
         == 5.0 * CelsiusSpacing(minCelsius, maxCelsius, mercuryHeight)
  {
    var lo, hi := MinFahrenheit(minCelsius), MaxFahrenheit(maxCelsius);
    var d := (maxCelsius - minCelsius) as real;
    var cs := CelsiusSpacing(minCelsius, maxCelsius, mercuryHeight);
    var lead := maxCelsius as real - ToCelsius(hi);
    var trail := ToCelsius(lo) - minCelsius as real;
    var n := (hi - lo) as real / 10.0;
    assert mercuryHeight == d / 10.0 * cs by {
      Quotient(cs, mercuryHeight, d / 10.0);
    }
    assert 9.0 * (ToCelsius(hi) - ToCelsius(lo)) == 50.0 * n;
    SpacingAlgebra(mercuryHeight, LeadingOffset(minCelsius, maxCelsius, mercuryHeight),
                   TrailingOffset(minCelsius, maxCelsius, mercuryHeight), cs, d, lead, trail,
                   ToCelsius(hi) - ToCelsius(lo), n, FahrenheitSpacing(minCelsius, maxCelsius, mercuryHeight));
  }

  /** The arithmetic behind FahrenheitSpacingExact, over plain reals: a column
      of d/10 spacings less a leading part of x/10 spacings and a trailing
      part of y/10 spacings leaves g/10 spacings, where g = d - x - y is the
      Celsius width of n Fahrenheit decades. */
  lemma SpacingAlgebra(height: real, leading: real, trailing: real, cs: real,
                       d: real, x: real, y: real, g: real, n: real, fs: real)
    requires height == d / 10.0 * cs
    requires leading == Map(x, 0.0, 10.0, 0.0, cs) && trailing == Map(y, 0.0, 10.0, 0.0, cs)
    requires x + y + g == d && 9.0 * g == 50.0 * n && n != 0.0
    requires fs == (height - (leading + trailing)) / n
    ensures 9.0 * fs == 5.0 * cs
  {
    assert leading == x / 10.0 * cs && trailing == y / 10.0 * cs;
    assert height - (leading + trailing) == (d - x - y) / 10.0 * cs;
    assert fs * n == g / 10.0 * cs;
    assert (9.0 * fs) * n == (5.0 * cs) * n;
    assert (9.0 * fs - 5.0 * cs) * n == 0.0;
  }

  /** The k-th Fahrenheit label, drawn k Fahrenheit spacings below the
      leading offset, sits exactly at the position of its value, converted to
      Celsius, on the Celsius scale. */
  lemma FahrenheitLabelAligned(minCelsius: int, maxCelsius: int, mercuryHeight: real, k: int)
    requires minCelsius != maxCelsius
    requires MinFahrenheit(minCelsius) != MaxFahrenheit(maxCelsius)
    ensures LeadingOffset(minCelsius, maxCelsius, mercuryHeight)
            + k as real * FahrenheitSpacing(minCelsius, maxCelsius, mercuryHeight)
         == ScaleOffset(ToCelsius(MaxFahrenheit(maxCelsius) - 10 * k), minCelsius, maxCelsius, mercuryHeight)
  {
    var hi := MaxFahrenheit(maxCelsius);
    var cs := CelsiusSpacing(minCelsius, maxCelsius, mercuryHeight);
    var fs := FahrenheitSpacing(minCelsius, maxCelsius, mercuryHeight);
    OffsetsAligned(minCelsius, maxCelsius, mercuryHeight);
    FahrenheitSpacingExact(minCelsius, maxCelsius, mercuryHeight);
    ScaleOffsetBySpacing(ToCelsius(hi), minCelsius, maxCelsius, mercuryHeight);
    ScaleOffsetBySpacing(ToCelsius(hi - 10 * k), minCelsius, maxCelsius, mercuryHeight);
    assert 9.0 * (ToCelsius(hi) - ToCelsius(hi - 10 * k)) == 50.0 * k as real;
    assert k as real * fs == (ToCelsius(hi) - ToCelsius(hi - 10 * k)) / 10.0 * cs by {
      assert 9.0 * (k as real * fs) == k as real * (5.0 * cs);
    }
  }

  /** The top of the mercury fill sits at the scale position of the
      temperature clamped into the Celsius range: the fill and the labels
      share one scale. */
  lemma MercuryTopAligned(temperature: real, minCelsius: int, maxCelsius: int, mercuryHeight: real)
    requires minCelsius != maxCelsius
    ensures mercuryHeight * (1.0 - FillFraction(temperature, minCelsius, maxCelsius))
         == ScaleOffset(Limit(temperature, minCelsius as real, maxCelsius as real),
                        minCelsius, maxCelsius, mercuryHeight)
  {
    var d := (maxCelsius - minCelsius) as real;
    assert d == maxCelsius as real - minCelsius as real;
    var t := Limit(temperature, minCelsius as real, maxCelsius as real);
    var f := FillFraction(temperature, minCelsius, maxCelsius);
    assert f == (t - minCelsius as real) / d;
    assert f * d == t - minCelsius as real;
    assert (1.0 - f) * d == d - f * d;
    assert d - f * d == maxCelsius as real - t;
    Quotient(1.0 - f, maxCelsius as real - t, d);
  }

  /** A number times d is a exactly when it is a divided by d. */
  lemma Quotient(x: real, a: real, d: real)
    requires d != 0.0 && x * d == a
    ensures x == a / d
  {
  }

  /** One label drawn by a decade loop: its value and its offset below the
      top of the mercury column. */
  datatype Label = Label(value: int, offset: real)

  /** One decade loop of `paintComponent`, `for (i = hi, n = 0; i >= lo;
      i -= 10, n++)`: the n-th label shows hi - 10 n and is drawn n spacings
      below the first offset. */
  method DecadeRows(hi: int, lo: int, first: real, spacing: real) returns (rows: seq<Label>)
    ensures |rows| == |DecadeLabels(hi, lo)|
    ensures forall k :: 0 <= k < |rows| ==>
              rows[k] == Label(DecadeLabels(hi, lo)[k], first + k as real * spacing)
  {
    rows := [];
    var i, n := hi, 0;
    while i >= lo
      invariant 0 <= n && i == hi - 10 * n
      invariant |rows| == n
      invariant |DecadeLabels(hi, lo)| == n + |DecadeLabels(i, lo)|
      invariant forall k :: 0 <= k < n ==> rows[k] == Label(hi - 10 * k, first + k as real * spacing)
      decreases i - lo + 10
    {
      var row := Label(i, first + n as real * spacing);
      assert row == Label(hi - 10 * n, first + n as real * spacing);
      ghost var before := rows;
      rows := rows + [row];
      forall k | 0 <= k <= n
        ensures rows[k] == Label(hi - 10 * k, first + k as real * spacing)
      {
        if k < n {
          assert rows[k] == before[k];
        }
      }
      i, n := i - 10, n + 1;
    }
    DecadeLabelsShape(hi, lo);
  }

  /** The Celsius decade loop of `paintComponent`: labels from the maximum
      down, spaced by the Celsius spacing from the top of the column. Every
      label is drawn at the position of its value on the scale. */
  method CelsiusRows(minCelsius: int, maxCelsius: int, mercuryHeight: real) returns (rows: seq<Label>)
    requires minCelsius != maxCelsius
    ensures |rows| == |DecadeLabels(maxCelsius, minCelsius)|
    ensures forall k :: 0 <= k < |rows| ==>
              rows[k].value == DecadeLabels(maxCelsius, minCelsius)[k]
              && rows[k].offset == ScaleOffset(rows[k].value as real, minCelsius, maxCelsius, mercuryHeight)
  {
    rows := DecadeRows(maxCelsius, minCelsius, 0.0, CelsiusSpacing(minCelsius, maxCelsius, mercuryHeight));
    DecadeLabelsShape(maxCelsius, minCelsius);
    forall k | 0 <= k < |rows|
      ensures rows[k].offset == ScaleOffset(rows[k].value as real, minCelsius, maxCelsius, mercuryHeight)
    {
      CelsiusLabelAligned(minCelsius, maxCelsius, mercuryHeight, k);
    }
  }

  /** The Fahrenheit decade loop of `paintComponent`: labels from the
      Fahrenheit maximum down, starting at the leading offset and spaced by
      the Fahrenheit spacing. Every label is drawn at the position of its
      value, converted to Celsius, on the Celsius scale. */
  method FahrenheitRows(minCelsius: int, maxCelsius: int, mercuryHeight: real) returns (rows: seq<Label>)
    requires minCelsius != maxCelsius
    requires MinFahrenheit(minCelsius) != MaxFahrenheit(maxCelsius)
    ensures |rows| == |DecadeLabels(MaxFahrenheit(maxCelsius), MinFahrenheit(minCelsius))|
    ensures forall k :: 0 <= k < |rows| ==>
              rows[k].value == DecadeLabels(MaxFahrenheit(maxCelsius), MinFahrenheit(minCelsius))[k]
              && rows[k].offset == ScaleOffset(ToCelsius(rows[k].value), minCelsius, maxCelsius, mercuryHeight)
  {
    var minFahrenheit, maxFahrenheit := MinFahrenheit(minCelsius), MaxFahrenheit(maxCelsius);
    rows := DecadeRows(maxFahrenheit, minFahrenheit,
                       LeadingOffset(minCelsius, maxCelsius, mercuryHeight),
                       FahrenheitSpacing(minCelsius, maxCelsius, mercuryHeight));
    forall k | 0 <= k < |rows|
      ensures rows[k].offset == ScaleOffset(ToCelsius(rows[k].value), minCelsius, maxCelsius, mercuryHeight)
    {
      FahrenheitRowAligned(minCelsius, maxCelsius, mercuryHeight, k);
    }
  }

  /** FahrenheitLabelAligned for the k-th value the Fahrenheit loop visits. */
  lemma FahrenheitRowAligned(minCelsius: int, maxCelsius: int, mercuryHeight: real, k: int)
    requires minCelsius != maxCelsius
    requires MinFahrenheit(minCelsius) != MaxFahrenheit(maxCelsius)
    requires 0 <= k < |DecadeLabels(MaxFahrenheit(maxCelsius), MinFahrenheit(minCelsius))|
    ensures LeadingOffset(minCelsius, maxCelsius, mercuryHeight)
            + k as real * FahrenheitSpacing(minCelsius, maxCelsius, mercuryHeight)
         == ScaleOffset(ToCelsius(DecadeLabels(MaxFahrenheit(maxCelsius), MinFahrenheit(minCelsius))[k]),
                        minCelsius, maxCelsius, mercuryHeight)
  {
    DecadeLabelsShape(MaxFahrenheit(maxCelsius), MinFahrenheit(minCelsius));
    FahrenheitLabelAligned(minCelsius, maxCelsius, mercuryHeight, k);
  }
}
