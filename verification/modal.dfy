/**
 * The detail modal's classifiers. The modal carries its own copies of the
 * card's temperature, pH and chlorine bands; they are modelled as written
 * and shown to agree with the card's.
 */
module Modal {
  import Readings

  function TemperatureTone(temp: real): Readings.Tone {
    if temp >= 30.0 then Readings.Danger
    else if temp >= 25.0 then Readings.Warning
    else Readings.Info
  }

  function PhTone(ph: real): Readings.Tone {
    if ph >= 7.2 && ph <= 7.6 then Readings.Success
    else if ph >= 7.0 && ph < 7.2 then Readings.Warning
    else if ph > 7.6 && ph <= 7.8 then Readings.Warning
    else Readings.Danger
  }

  function ChlorineTone(cloro: real): Readings.Tone {
    if cloro >= 1.0 && cloro <= 2.0 then Readings.Success
    else if cloro >= 0.8 && cloro < 1.0 then Readings.Warning
    else if cloro > 2.0 && cloro <= 2.5 then Readings.Warning
    else Readings.Danger
  }

  /** The modal colours every reading exactly as the card does. */
  lemma AgreesWithCard(temp: real, ph: real, cloro: real)
    ensures TemperatureTone(temp) == Readings.TemperatureTone(temp)
    ensures PhTone(ph) == Readings.PhTone(ph)
    ensures ChlorineTone(cloro) == Readings.ChlorineTone(cloro)
    ensures ChlorineTone(cloro) == Readings.Danger <==> (cloro < 0.8 || cloro > 2.5)
  {
  }
}
