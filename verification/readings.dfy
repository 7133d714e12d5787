/**
 * How a pool card colours its readings: threshold bands for temperature,
 * pH and free chlorine, the thermometer icon colour, and the position of
 * the pH markers on the card's vertical scale.
 */
module Readings {
  import opened Basics

  /** The Bootstrap text classes the card uses for a reading. */
  datatype Tone = Success | Warning | Danger | Info

  /** The class name written into the markup. */
  function ClassName(t: Tone): string {
    match t
    case Success => "text-success"
    case Warning => "text-warning"
    case Danger => "text-danger"
    case Info => "text-info"
  }

  /** Distinct tones render as distinct classes. */
  lemma ClassNameInjective(a: Tone, b: Tone)
    ensures ClassName(a) == ClassName(b) ==> a == b
  {
  }

  /** The thermometer icon colours: green, orange and red. */
  datatype IconColour = Green | Orange | Red

  /** The hex colour written into the markup. */
  function Hex(c: IconColour): string {
    match c
    case Green => "#28a745"
    case Orange => "#ff9800"
    case Red => "#dc3545"
  }

  /** Temperature text: danger from 30 °C, warning from 25 °C, informational below. */
  function TemperatureTone(temp: real): (t: Tone)
    ensures t == Danger <==> temp >= 30.0
    ensures t == Warning <==> 25.0 <= temp < 30.0
    ensures t == Info <==> temp < 25.0
  {
    if temp >= 30.0 then Danger
    else if temp >= 25.0 then Warning
    else Info
  }

  /**
   * Thermometer icon: green in the comfortable band [25, 30), red from 30,
   * orange otherwise, including every temperature below 20 °C.
   */
  function TemperatureIcon(temp: real): (c: IconColour)
    ensures c == Green <==> 25.0 <= temp < 30.0
    ensures c == Red <==> temp >= 30.0
    ensures c == Orange <==> temp < 25.0
  {
    if temp >= 25.0 && temp < 30.0 then Green
    else if temp >= 20.0 && temp < 25.0 then Orange
    else if temp >= 30.0 then Red
    else Orange
  }

  /** The icon is red exactly when the text is red, and green exactly when the text warns. */
  lemma IconFollowsText(temp: real)
    ensures TemperatureIcon(temp) == Red <==> TemperatureTone(temp) == Danger
    ensures TemperatureIcon(temp) == Green <==> TemperatureTone(temp) == Warning
  {
  }

  /** pH text: success on [7.2, 7.6], warning just around it, danger below 7.0 or above 7.8. */
  function PhTone(ph: real): (t: Tone)
    ensures t != Info
    ensures t == Success <==> 7.2 <= ph <= 7.6
    ensures t == Warning <==> (7.0 <= ph < 7.2 || 7.6 < ph <= 7.8)
    ensures t == Danger <==> (ph < 7.0 || ph > 7.8)
  {
    if ph >= 7.2 && ph <= 7.6 then Success
    else if ph >= 7.0 && ph < 7.2 then Warning
    else if ph > 7.6 && ph <= 7.8 then Warning
    else Danger
  }

  /** Chlorine text: success on [1.0, 2.0], warning just around it, danger below 0.8 or above 2.5. */
  function ChlorineTone(cloro: real): (t: Tone)
    ensures t != Info
    ensures t == Success <==> 1.0 <= cloro <= 2.0
    ensures t == Warning <==> (0.8 <= cloro < 1.0 || 2.0 < cloro <= 2.5)
    ensures t == Danger <==> (cloro < 0.8 || cloro > 2.5)
  {
    if cloro >= 1.0 && cloro <= 2.0 then Success
    else if cloro >= 0.8 && cloro < 1.0 then Warning
    else if cloro > 2.0 && cloro <= 2.5 then Warning
    else Danger
  }

  /**
   * The success band of each banded reading lies strictly inside its
   * non-danger envelope: both edges of the success band have room for a
   * warning on the far side.
   */
  lemma SuccessInsideEnvelope()
    ensures PhTone(7.1) == Warning && PhTone(7.7) == Warning
    ensures ChlorineTone(0.9) == Warning && ChlorineTone(2.2) == Warning
    ensures forall ph: real :: PhTone(ph) == Success ==> 7.0 < ph < 7.8
    ensures forall c: real :: ChlorineTone(c) == Success ==> 0.8 < c < 2.5
  {
  }

  /**
   * Height of a pH marker on the scale, in percent: pH 6 sits at the
   * bottom, pH 9 at the top, and values beyond are pinned to the ends.
   */
  function PhMarker(ph: real): (pos: real)
    ensures 0.0 <= pos <= 100.0
    ensures ph <= 6.0 ==> pos == 0.0
    ensures ph >= 9.0 ==> pos == 100.0
    ensures 6.0 <= ph <= 9.0 ==> 3.0 * pos == (ph - 6.0) * 100.0
  {
    MinReal(MaxReal((ph - 6.0) / 3.0 * 100.0, 0.0), 100.0)
  }

  /** A higher pH never draws its marker lower. */
  lemma PhMarkerMonotone(a: real, b: real)
    requires a <= b
    ensures PhMarker(a) <= PhMarker(b)
  {
    assert (a - 6.0) / 3.0 * 100.0 <= (b - 6.0) / 3.0 * 100.0;
  }

  /** The target marker, drawn only when the target pH is known and non-zero (falsy otherwise). */
  function TargetMarker(targetPh: Option<real>): (r: Option<real>)
    ensures r.Some? <==> targetPh.Some? && targetPh.value != 0.0
    ensures r.Some? ==> r.value == PhMarker(targetPh.value)
  {
    match targetPh
    case Some(t) => if t != 0.0 then Some(PhMarker(t)) else None
    case None => None
  }
}
