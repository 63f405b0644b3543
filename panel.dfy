/**
  The thermometer panel as an object: its Celsius range and the Fahrenheit
  label bounds derived from it once, the physics fields that the animation
  updates in place, and a `running` flag standing for the animation timer.

  `seek` sets the target and starts the timer; each timer tick runs `update`,
  which either stops the timer (the temperature has arrived) or performs one
  step of the easing controller and asks for a repaint. The steps are proved
  against `Easing.Tick`.
*/
module Panel {
  import opened Scale
  import opened Easing
  import opened Layout

  class ThermometerPanel {
    const minCelsius: int
    const maxCelsius: int
    const minFahrenheit: int
    const maxFahrenheit: int

    var temperature: real
    var velocity: real
    var acceleration: real
    var target: real
    /** Whether the animation timer is running. */
    var running: bool

    /** The physics fields as one value. */
    function State(): Motion
      reads this
    {
      Motion(temperature, velocity, acceleration, target)
    }

    /** The Fahrenheit bounds are those derived from the Celsius range, and
        between ticks no force is pending and the speed is within bounds. */
    ghost predicate Valid()
      reads this
    {
      minFahrenheit == MinFahrenheit(minCelsius)
      && maxFahrenheit == MaxFahrenheit(maxCelsius)
      && BetweenTicks(State())
    }

    /** The panel starts at temperature `t`, at rest, with the timer stopped.
        The target is not set and keeps Java's default of zero. */
    constructor (min: int, max: int, t: int)
      ensures Valid()
      ensures minCelsius == min && maxCelsius == max
      ensures minFahrenheit % 10 == 0 && maxFahrenheit % 10 == 0
      ensures State() == Motion(t as real, 0.0, 0.0, 0.0)
      ensures !running
    {
      minCelsius := min;
      maxCelsius := max;
      minFahrenheit := MinFahrenheit(min);
      maxFahrenheit := MaxFahrenheit(max);
      temperature := t as real;
      velocity := 0.0;
      acceleration := 0.0;
      target := 0.0;
      running := false;
    }

    /** `seek`: sets the target and starts the timer; nothing else changes. */
    method Seek(t: int)
      requires Valid()
      modifies this
      ensures Valid()
      ensures State() == old(State()).(target := t as real)
      ensures running
    {
      target := t as real;
      running := true;
    }

    /** `update`, run on each timer tick. Once the speed and the distance to
        the target are both within the deadband it stops the timer and leaves
        the physics fields alone; otherwise it steers toward the target and
        reports that a repaint is needed. */
    method Update() returns (repaint: bool)
      requires Valid()
      modifies this
      ensures Valid()
      ensures State() == Tick(old(State()))
      ensures repaint == !Settled(old(State()))
      ensures running == (old(running) && repaint)
      ensures Abs(velocity - old(velocity)) <= MaxForce
      ensures repaint ==> temperature == old(temperature) + velocity
    {
      TickVelocityChange(State());
      if Abs(velocity) < Deadband && Abs(temperature - target) < Deadband {
        running := false;
        repaint := false;
      } else {
        var desired := Desired(temperature, target);
        var steer := desired - velocity;
        acceleration := acceleration + Limit(steer, -MaxForce, MaxForce);
        velocity := velocity + acceleration;
        velocity := Limit(velocity, -MaxSpeed, MaxSpeed);
        temperature := temperature + velocity;
        acceleration := 0.0;
        repaint := true;
      }
    }

    /** The arithmetic of `paintComponent` for a mercury column of height
        `mercuryHeight`: the filled share of the column, whose top sits at
        the scale position of the clamped temperature, and the two rows of
        decade labels. */
    method Paint(mercuryHeight: real) returns (fill: real, celsius: seq<Label>, fahrenheit: seq<Label>)
      requires Valid()
      requires minCelsius != maxCelsius && minFahrenheit != maxFahrenheit
      ensures fill == FillFraction(temperature, minCelsius, maxCelsius)
      ensures minCelsius < maxCelsius ==> 0.0 <= fill <= 1.0
      ensures mercuryHeight * (1.0 - fill)
           == ScaleOffset(Limit(temperature, minCelsius as real, maxCelsius as real),
                          minCelsius, maxCelsius, mercuryHeight)
      ensures |celsius| == |DecadeLabels(maxCelsius, minCelsius)|
      ensures forall k :: 0 <= k < |celsius| ==>
                celsius[k].value == DecadeLabels(maxCelsius, minCelsius)[k]
                && celsius[k].offset == ScaleOffset(celsius[k].value as real, minCelsius, maxCelsius, mercuryHeight)
      ensures |fahrenheit| == |DecadeLabels(maxFahrenheit, minFahrenheit)|
      ensures forall k :: 0 <= k < |fahrenheit| ==>
                fahrenheit[k].value == DecadeLabels(maxFahrenheit, minFahrenheit)[k]
                && fahrenheit[k].offset
                   == ScaleOffset(ToCelsius(fahrenheit[k].value), minCelsius, maxCelsius, mercuryHeight)
    {
      fill := FillFraction(temperature, minCelsius, maxCelsius);
      MercuryTopAligned(temperature, minCelsius, maxCelsius, mercuryHeight);
      celsius := CelsiusRows(minCelsius, maxCelsius, mercuryHeight);
      fahrenheit := FahrenheitRows(minCelsius, maxCelsius, mercuryHeight);
    }
  }

  /** Seeking the same target twice leaves the panel as seeking it once. */
  method SeekTwice(panel: ThermometerPanel, t: int)
    requires panel.Valid()
    modifies panel
    ensures panel.Valid()
    ensures panel.State() == old(panel.State()).(target := t as real) && panel.running
  {
    panel.Seek(t);
    ghost var once := panel.State();
    panel.Seek(t);
    assert panel.State() == once;
  }
}
