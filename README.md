# Thermometer panel: a verified model

This project models the core of a Swing thermometer widget, the
`ThermometerPanel` class. The panel shows a Celsius range with a Fahrenheit
scale beside it. The displayed temperature eases toward a target set by a
slider, through a small physics simulation that runs on a 30 FPS timer.

The model has four modules:

- `Scale` (`scale.dfy`) holds the static helpers `limit` and `map` and the
  two unit conversions. It also holds the Fahrenheit label bounds that the
  constructor derives, rounded up or down to a multiple of ten; the mercury
  fill fraction; and the values visited by the descending decade-label loops.
- `Easing` (`easing.dfy`) gives one timer tick as a pure transition, `Tick`,
  on the physics fields. It proves the bounds the controller keeps.
- `Layout` (`layout.dfy`) covers the body rectangle's width-versus-height
  choice, the label spacings and Fahrenheit offsets, and the two label loops
  of `paintComponent`. Each loop yields label values with their vertical
  offsets below the top of the mercury column.
- `Panel` (`panel.dfy`) is the class `ThermometerPanel`. It has the range
  constants, the mutable fields `temperature`, `velocity`, `acceleration` and
  `target`, and a `running` flag in place of the Swing timer. `Seek` and
  `Update` change these fields in place. Each states its whole new state;
  `Update`'s is proved equal to `Tick` of the old state.

Java `double` is modelled as `real`. Pixel coordinates are reals, and the
`(int)` truncations are not modelled.

Some of what the code does differs from what its own names and comments
suggest. The model follows the code:

- The damping test `target - temperature > 15` at
  `src/ThermometerPanel.java:142` is one-sided. The direction test inside it
  (line 143, "Test for correct direction") can therefore only ever pick `1`.
  When the target is more than 15 below, the linear branch at line 145 runs,
  and its desired speed exceeds `MAX_SPEED`. The model keeps this.
  `Easing.DampingAsymmetryImmaterial` proves it makes no difference to the
  new velocity while the speed is within bounds.
- `RATIO = 2.0/4.0` (line 170) is documented at line 165 as the "Width to
  height ratio". The width-limited branch keeps that 1:2 shape. The
  height-limited branch takes the full height less a margin of
  `2 * MARGIN * height * RATIO`, so the body is 0.45 of the height wide and
  0.95 of it tall: its sides are in the ratio 9:19.
- The comment at lines 55-58 introduces the Fahrenheit offsets as giving "a
  more accurate measure". In exact arithmetic they make it exact: every
  Fahrenheit label lands exactly at the Celsius position of its value
  (`Layout.FahrenheitLabelAligned`). Any misalignment on screen comes only
  from rounding.
- The constructor takes its starting temperature as an argument. It never
  sets the target, so the target starts at Java's default of 0.
- A degenerate range (`MIN_CELSIUS == MAX_CELSIUS`, or equal Fahrenheit
  bounds) is not rejected at construction. The model puts the matching
  precondition on each function that divides by that range.

## Model

| member | source | states |
|---|---|---|
| `Scale.Limit` | src/ThermometerPanel.java:299-301 | with lo ≤ hi the result lies in [lo, hi]; a value already in range is returned unchanged; below lo gives lo, above hi gives hi; with hi < lo the result is hi |
| `Scale.LimitIdempotent` | src/ThermometerPanel.java:299-301 | clamping twice equals clamping once |
| `Scale.LimitNonExpansive` | src/ThermometerPanel.java:299-301 | clamping into an interval that contains p never moves a value further from p |
| `Scale.LimitMonotone` | src/ThermometerPanel.java:299-301 | clamping preserves order |
| `Scale.Map` | src/ThermometerPanel.java:313-315 | maps start1 to start2 and stop1 to stop2 |
| `Scale.MapProportional` | src/ThermometerPanel.java:313-315 | the result's share of the second range equals the value's share of the first |
| `Scale.MapInRange` | src/ThermometerPanel.java:313-315 | a value inside the first range maps into the second |
| `Scale.MapInverse` | src/ThermometerPanel.java:313-315 | mapping back with the ranges swapped returns the original value |
| `Scale.ToFahrenheit` | src/ThermometerPanel.java:323-325 | 5 f = 9 c + 160 |
| `Scale.ToCelsius` | src/ThermometerPanel.java:333-335 | 9 c = 5 (f − 32) |
| `Scale.ConversionOrder` | src/ThermometerPanel.java:323-335 | the conversions are order-preserving inverses: F(c) ≤ f iff c ≤ C(f), and f ≤ F(c) iff C(f) ≤ c |
| `Scale.Floor` | src/ThermometerPanel.java:110 | `Math.floor`: the greatest integer not above x |
| `Scale.Ceil` | src/ThermometerPanel.java:109 | `Math.ceil`: the least integer not below x |
| `Scale.MinFahrenheit` | src/ThermometerPanel.java:109 | `MIN_FAHRENHEIT` is a multiple of 10, at least F(`MIN_CELSIUS`) and less than 10 above it |
| `Scale.MaxFahrenheit` | src/ThermometerPanel.java:110 | `MAX_FAHRENHEIT` is a multiple of 10, at most F(`MAX_CELSIUS`) and less than 10 below it |
| `Scale.FahrenheitBoundsExact` | src/ThermometerPanel.java:109-110 | the bounds agree with the integer-only forms 10·⌈(9c+160)/50⌉ and 10·⌊(9c+160)/50⌋ |
| `Scale.FahrenheitBoundsContained` | src/ThermometerPanel.java:15-20 | converted back to Celsius, the Fahrenheit range lies inside [`MIN_CELSIUS`, `MAX_CELSIUS`], each bound less than 50/9 degrees inside |
| `Scale.FillFraction` | src/ThermometerPanel.java:242 | for MIN < MAX the fill lies in [0, 1]; it is 0 at or below MIN and 1 at or above MAX; in range, fill·(MAX−MIN) = t − MIN; for MAX < MIN it is always 1 |
| `Scale.FillFractionMonotone` | src/ThermometerPanel.java:242 | a warmer temperature never shows less mercury |
| `Scale.DecadeLabels` | src/ThermometerPanel.java:268 | the values `for (i = hi; i >= lo; i -= 10)` visits: none exactly when hi < lo, and otherwise starting at hi |
| `Scale.DecadeLabelsShape` | src/ThermometerPanel.java:268 | the loop visits ⌊(hi−lo)/10⌋+1 values (none if hi < lo); the k-th is hi − 10k; all are ≥ lo and the last is < lo + 10 |
| `Scale.DecadeLabelsDescending` | src/ThermometerPanel.java:268 | the visited values strictly descend |
| `Scale.FahrenheitLabelsInRange` | src/ThermometerPanel.java:273 | every Fahrenheit label is a multiple of 10 whose Celsius value lies in [`MIN_CELSIUS`, `MAX_CELSIUS`] |
| `Scale.DefaultRangeLabels` | src/ThermometerPanel.java:106-110 | for the range −40..50 °C the Fahrenheit bounds are −40 and 120, with 10 Celsius and 17 Fahrenheit labels |
| `Easing.BetweenTicks` | src/ThermometerPanel.java:146-152 | the state between ticks: acceleration 0 (reset at line 152) and absolute velocity at most `MAX_SPEED` (the clamp at line 150); the invariant the lemmas and the class keep |
| `Easing.Settled` | src/ThermometerPanel.java:138 | the arrival test: absolute velocity and absolute distance to the target both below 0.1 |
| `Easing.Desired` | src/ThermometerPanel.java:141-145 | saturates at `MAX_SPEED` only when the target is more than 15 above; otherwise desired·15 = (target − temperature)·`MAX_SPEED`, proportional to the distance; the sign follows the direction to the target; its magnitude is at most `MAX_SPEED` unless the target is more than 15 below, where it exceeds `MAX_SPEED` |
| `Easing.DesiredDecreasesApproaching` | src/ThermometerPanel.java:142-145 | a warmer temperature never asks for a larger velocity, so the desired speed falls as the temperature approaches the target from below |
| `Easing.Tick` | src/ThermometerPanel.java:136-156 | the target never changes; a settled state is left unchanged; otherwise acceleration ends at 0, the absolute velocity is at most `MAX_SPEED`, and the temperature moves by exactly the new velocity |
| `Easing.TickKeepsBetweenTicks` | src/ThermometerPanel.java:146-152 | the invariant "acceleration 0 and absolute velocity at most `MAX_SPEED`" survives every tick |
| `Easing.TickSteersTowardDesired` | src/ThermometerPanel.java:146-150 | a tick moves the velocity toward the desired velocity clamped to ±`MAX_SPEED` and never past it: from below it does not fall and does not exceed that goal; from above, symmetrically |
| `Easing.TickVelocityChange` | src/ThermometerPanel.java:146-150 | starting within `MAX_SPEED`, one tick changes the velocity by at most `MAX_FORCE` |
| `Easing.TickFarBelowTargetRises` | src/ThermometerPanel.java:142-151 | more than 15 below the target and not moving down, the velocity does not decrease and the temperature does not fall |
| `Easing.DampingAsymmetryImmaterial` | src/ThermometerPanel.java:142-150 | with the target more than 15 below, the as-written linear branch yields the same velocity as saturating at −`MAX_SPEED` |
| `Easing.TickFixedPointIffSettled` | src/ThermometerPanel.java:138-151 | a tick leaves the state unchanged exactly when the deadband test holds |
| `Layout.Body` | src/ThermometerPanel.java:173-185 | the body rectangle is non-negative and fits inside the panel in both branches |
| `Layout.BodyProportions` | src/ThermometerPanel.java:173-185 | width-limited: ratio 1:2 at 90% of the width; height-limited: 95% of the height at ratio 9:19 |
| `Layout.ScaleOffset` | src/ThermometerPanel.java:198-200 | reference scale position below the column top: 0 at `MAX_CELSIUS`, the full height at `MIN_CELSIUS` |
| `Layout.CelsiusSpacing` | src/ThermometerPanel.java:198-200 | the spacing times the number of Celsius decades, (MAX − MIN)/10, is the column height |
| `Layout.CelsiusLabelAligned` | src/ThermometerPanel.java:200 | the k-th Celsius label, k spacings down, sits at the scale position of MAX − 10k |
| `Layout.ScaleOffsetBySpacing` | src/ThermometerPanel.java:200 | a scale position is (MAX − c)/10 Celsius spacings |
| `Layout.LeadingOffset` | src/ThermometerPanel.java:202-203 | 10 · offset = (MAX − C(`MAX_FAHRENHEIT`)) · spacing: the Celsius amount rounding took off the maximum, as a share of one 10-degree decade, in Celsius spacings |
| `Layout.TrailingOffset` | src/ThermometerPanel.java:204-205 | 10 · offset = (C(`MIN_FAHRENHEIT`) − MIN) · spacing: the amount rounding took off the minimum, measured the same way |
| `Layout.OffsetsAligned` | src/ThermometerPanel.java:202-205 | the leading offset is the scale position of `MAX_FAHRENHEIT`; the height less the trailing offset is that of `MIN_FAHRENHEIT` |
| `Layout.OffsetsBounded` | src/ThermometerPanel.java:202-205 | for MIN < MAX and a non-negative height, both offsets lie in [0, 5/9 of a Celsius spacing] |
| `Layout.FahrenheitSpacing` | src/ThermometerPanel.java:207-209 | the spacing times the number of Fahrenheit decades, (`MAX_FAHRENHEIT` − `MIN_FAHRENHEIT`)/10, is the column height less both offsets |
| `Layout.FahrenheitSpacingExact` | src/ThermometerPanel.java:207-209 | 9 · `fahrenheitSpacing` = 5 · `celsiusSpacing` |
| `Layout.FahrenheitLabelAligned` | src/ThermometerPanel.java:273-276 | the k-th Fahrenheit label, at the leading offset plus k spacings, sits at the Celsius scale position of its converted value |
| `Layout.FahrenheitRowAligned` | src/ThermometerPanel.java:273-276 | the k-th value the Fahrenheit loop visits is drawn at the leading offset plus k spacings, which is the Celsius scale position of that value |
| `Layout.MercuryTopAligned` | src/ThermometerPanel.java:242-247 | the top of the mercury fill sits at the scale position of the clamped temperature |
| `Layout.DecadeRows` | src/ThermometerPanel.java:268-277 | the loop yields exactly the decade values, the n-th drawn n spacings below the first offset |
| `Layout.CelsiusRows` | src/ThermometerPanel.java:268-272 | the Celsius labels are the decade values from MAX down, each drawn at its scale position |
| `Layout.FahrenheitRows` | src/ThermometerPanel.java:273-277 | the Fahrenheit labels are the decade values from `MAX_FAHRENHEIT` down, each drawn at the Celsius scale position of its converted value |
| `Panel.ThermometerPanel.constructor` | src/ThermometerPanel.java:106-121 | range stored; Fahrenheit bounds derived and multiples of 10; temperature t, velocity and acceleration 0, target 0, timer stopped; invariant established |
| `Panel.ThermometerPanel.Seek` | src/ThermometerPanel.java:128-131 | sets the target and starts the timer; nothing else changes |
| `Panel.ThermometerPanel.Update` | src/ThermometerPanel.java:136-156 | the new physics state is `Tick` of the old; a repaint is reported iff not settled, and the timer stops iff settled; the velocity moves by at most `MAX_FORCE`; the invariant is kept |
| `Panel.ThermometerPanel.Paint` | src/ThermometerPanel.java:240-277 | the fill is `FillFraction` of the current temperature, in [0, 1] for MIN < MAX, with its top at the clamped temperature's scale position; both label rows as the decade loops draw them, each at its scale position |
| `Panel.SeekTwice` | src/ThermometerPanel.java:128-131 | seeking the same target twice leaves the panel as seeking it once (idempotence) |

## Left out

- `src/Main.java` is window and slider wiring, with no logic of its own.
  Its range −40..50 appears only in `Scale.DefaultRangeLabels`.
- The drawing calls (`fillRoundRect`, `fillRect`, `fillOval`, `drawString`),
  colours, fonts and `FontMetrics` text widths are calls into AWT. Only the
  fill fraction and the label values and offsets are modelled, without the
  half-font-height added to label positions.
- The Swing `Timer`, `actionPerformed`, `repaint()` and the 30 FPS interval
  are left out. The timer is the `running` flag, and a repaint request is
  `Update`'s result.
- The `lastSize` cache is left out. So are the mercury rectangle, body and
  bulb radii and font size of `calculateGraphics`, and all `(int)`
  truncations: these are UI geometry. The mercury column height is a
  parameter of the layout functions.
- No convergence or overshoot guarantee is modelled. The code does not
  promise one, and the outcome would depend on IEEE `double` behaviour. The
  exact double rounding of `1.8 * c` is not modelled either.
- Java `int` overflow is not modelled: `MAX_CELSIUS - MIN_CELSIUS`, and
  `i -= 10` in the label loops near `Integer.MIN_VALUE`.
- `Scale.MinFahrenheit`, `Scale.MaxFahrenheit`: the `(int)` cast of
  `Math.ceil`/`Math.floor` and the product `10 * (int) …` at
  `src/ThermometerPanel.java:109-110` are unbounded here. In Java the product
  wraps once |c| exceeds about 1.19·10⁹, and there the contracts (a multiple
  of 10 within 10 of the converted bound) would not hold.
- `Layout.FahrenheitSpacing`, `Layout.FahrenheitRows`, `Panel.ThermometerPanel.Paint`: require distinct Fahrenheit bounds and a non-empty Celsius range, because the code divides by zero (giving infinities or NaN) in those degenerate cases.
- `Panel.ThermometerPanel.Update`: requires the panel invariant (zero acceleration, speed within `MAX_SPEED`). The constructor establishes it and every method keeps it, and the timer only calls `update` on a constructed panel.
