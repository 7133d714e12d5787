/**
 * The monitoring page's translation of controller records, as the backend
 * sends them, into the pool cards the grid displays: disassociated
 * controllers are dropped, sensor readings are looked up by name with
 * defaults for missing data, and free chlorine is estimated from pH and ORP.
 */
module Watch {
  import opened Basics
  import Text
  import Chlorine

  /** One sensor of a controller; absent or null fields are `None`. */
  datatype Sensor = Sensor(name: Option<string>, value: Option<real>, upperTh: Option<real>, status: Option<real>)

  /**
   * A controller's connection status after the backend's relabelling: a
   * label, a numeric code the backend did not recognise, or nothing.
   */
  datatype StatusField = Label(text: string) | Code(code: int) | Missing

  /** A controller record. `sensors` is `None` when the record carries no sensor list. */
  datatype Controller = Controller(
    ctrlId: int,
    ctrlName: Option<string>,
    status: StatusField,
    volume: Option<real>,
    sensors: Option<seq<Sensor>>)

  /** A pool card. */
  datatype Pool = Pool(
    id: string,
    nombre: string,
    temperatura: real,
    ph: real,
    cloro: real,
    orp: real,
    targetPh: Option<real>,
    tieneFlujo: bool,
    volumen: real,
    online: bool,
    nivelAcidoBajo: bool,
    nivelCloroBajo: bool)

  /** Sensor i is the first one called `name` at or after position k. */
  predicate FirstNamedFrom(sensors: seq<Sensor>, name: string, k: nat, i: nat) {
    k <= i < |sensors| && sensors[i].name == Some(name)
    && forall j :: k <= j < i ==> sensors[j].name != Some(name)
  }

  /** No sensor at or after position k is called `name`. */
  predicate NoneNamedFrom(sensors: seq<Sensor>, name: string, k: nat) {
    forall j :: k <= j < |sensors| ==> sensors[j].name != Some(name)
  }

  /** The position of the first sensor called `name` at or after position k. */
  function FindFrom(sensors: seq<Sensor>, name: string, k: nat): (r: Option<nat>)
    ensures r.None? <==> NoneNamedFrom(sensors, name, k)
    ensures r.Some? ==> FirstNamedFrom(sensors, name, k, r.value)
    decreases |sensors| - k
  {
    if k >= |sensors| then None
    else if sensors[k].name == Some(name) then Some(k)
    else FindFrom(sensors, name, k + 1)
  }

  /** `sensors?.find(s => s.SensorName === name)` */
  function FindSensor(c: Controller, name: string): (r: Option<Sensor>)
    ensures r.None? <==> c.sensors.None? || NoneNamedFrom(c.sensors.value, name, 0)
    ensures r.Some? ==> exists i: nat :: FirstNamedFrom(c.sensors.value, name, 0, i) && r.value == c.sensors.value[i]
  {
    match c.sensors
    case None => None
    case Some(ss) =>
      match FindFrom(ss, name, 0)
      case None => None
      case Some(i) => Some(ss[i])
  }

  /** A reading, or 0 when the sensor is missing or its value is null. */
  function SensorValue(c: Controller, name: string): (v: real)
    ensures FindSensor(c, name).None? ==> v == 0.0
    ensures FindSensor(c, name).Some? ==> v == FindSensor(c, name).value.value.GetOr(0.0)
  {
    match FindSensor(c, name)
    case None => 0.0
    case Some(s) => s.value.GetOr(0.0)
  }

  /** A sensor's upper threshold, absent when the sensor or its threshold is. */
  function SensorUpperTh(c: Controller, name: string): (v: Option<real>)
    ensures v.Some? <==> FindSensor(c, name).Some? && FindSensor(c, name).value.upperTh.Some?
    ensures v.Some? ==> v == FindSensor(c, name).value.upperTh
  {
    match FindSensor(c, name)
    case None => None
    case Some(s) => s.upperTh
  }

  /** A sensor's status code, or 0 when the sensor or its status is missing. */
  function SensorStatus(c: Controller, name: string): (v: real)
    ensures FindSensor(c, name).None? ==> v == 0.0
    ensures FindSensor(c, name).Some? ==> v == FindSensor(c, name).value.status.GetOr(0.0)
  {
    match FindSensor(c, name)
    case None => 0.0
    case Some(s) => s.status.GetOr(0.0)
  }

  /** JavaScript truthiness of an optional string: absent and empty are falsy. */
  function NameOr(name: Option<string>, fallback: string): (r: string)
    ensures name.Some? && name.value != "" ==> r == name.value
    ensures name.None? || name == Some("") ==> r == fallback
  {
    match name
    case Some(s) => if s != "" then s else fallback
    case None => fallback
  }

  /**
   * The card for one controller. Free chlorine comes from the estimator with
   * its control points scanned in ascending order; the page as written calls
   * the unsorted one, and `ChlorineAsWrittenOffGap` bounds the difference.
   */
  function ToPool(c: Controller): (p: Pool)
    ensures p.id == Text.IntToDecimal(c.ctrlId)
    ensures p.nombre == NameOr(c.ctrlName, "Piscina " + Text.IntToDecimal(c.ctrlId))
    ensures p.ph == SensorValue(c, "pH") && p.targetPh == SensorUpperTh(c, "pH")
    ensures p.temperatura == SensorValue(c, "Temperatura")
    ensures p.orp == SensorValue(c, "Cloro libre")
    ensures p.cloro == Chlorine.CalculatePPMSorted(p.ph, p.orp) && 0.0 <= p.cloro <= 5.0
    ensures p.tieneFlujo <==> SensorStatus(c, "Flujo") == 0.0
    ensures p.volumen == c.volume.GetOr(0.0)
    ensures p.online <==> c.status == Label("Conectado")
    ensures !p.nivelAcidoBajo && !p.nivelCloroBajo
  {
    var ph := SensorValue(c, "pH");
    var orp := SensorValue(c, "Cloro libre");
    Pool(
      Text.IntToDecimal(c.ctrlId),
      NameOr(c.ctrlName, "Piscina " + Text.IntToDecimal(c.ctrlId)),
      SensorValue(c, "Temperatura"),
      ph,
      Chlorine.CalculatePPMSorted(ph, orp),
      orp,
      SensorUpperTh(c, "pH"),
      SensorStatus(c, "Flujo") == 0.0,
      c.volume.GetOr(0.0),
      c.status == Label("Conectado"),
      false,
      false)
  }

  /** Controllers whose status is not "Desasociado" appear on the page. */
  predicate Listed(c: Controller) {
    c.status != Label("Desasociado")
  }

  /** The listed controllers, in their original order. */
  function ListedControllers(cs: seq<Controller>): (r: seq<Controller>)
    ensures |r| <= |cs|
    ensures forall i :: 0 <= i < |r| ==> Listed(r[i]) && r[i] in cs
  {
    if cs == [] then []
    else if Listed(cs[0]) then [cs[0]] + ListedControllers(cs[1..])
    else ListedControllers(cs[1..])
  }

  /** Every listed controller of the input survives the filter. */
  lemma {:induction false} ListedControllersComplete(cs: seq<Controller>)
    ensures forall c :: c in cs && Listed(c) ==> c in ListedControllers(cs)
  {
    if cs != [] {
      ListedControllersComplete(cs[1..]);
      assert forall c :: c in cs ==> c == cs[0] || c in cs[1..];
    }
  }

  /**
   * The filter distributes over concatenation: it keeps the input's order
   * and multiplicity, and a controller is kept on its own exactly when it
   * is listed.
   */
  lemma {:induction false} ListedAppend(a: seq<Controller>, b: seq<Controller>)
    ensures ListedControllers(a + b) == ListedControllers(a) + ListedControllers(b)
  {
    if a == [] {
      assert a + b == b;
    } else {
      var head := if Listed(a[0]) then [a[0]] else [];
      calc {
        ListedControllers(a + b);
        == { assert (a + b)[0] == a[0] && (a + b)[1..] == a[1..] + b; }
        head + ListedControllers(a[1..] + b);
        == { ListedAppend(a[1..], b); }
        head + (ListedControllers(a[1..]) + ListedControllers(b));
        ==
        (head + ListedControllers(a[1..])) + ListedControllers(b);
        ==
        ListedControllers(a) + ListedControllers(b);
      }
    }
  }

  /** A single controller is kept exactly when it is listed. */
  lemma ListedOne(c: Controller)
    ensures ListedControllers([c]) == (if Listed(c) then [c] else [])
  {
    assert [c][1..] == [];
  }

  /** `mapControllersToPiscinas`: drop disassociated controllers, then build a card for each. */
  function MapControllers(cs: seq<Controller>): (r: seq<Pool>)
    ensures |r| == |ListedControllers(cs)|
    ensures forall i :: 0 <= i < |r| ==> r[i] == ToPool(ListedControllers(cs)[i])
  {
    if cs == [] then []
    else if Listed(cs[0]) then [ToPool(cs[0])] + MapControllers(cs[1..])
    else MapControllers(cs[1..])
  }

  /** With no disassociated controller, every controller becomes a card, in order. */
  lemma {:induction false} AllListedMapsOneToOne(cs: seq<Controller>)
    requires forall i :: 0 <= i < |cs| ==> Listed(cs[i])
    ensures ListedControllers(cs) == cs
    ensures |MapControllers(cs)| == |cs|
  {
    if cs != [] {
      AllListedMapsOneToOne(cs[1..]);
    }
  }

  /** Controllers with distinct ids give cards with distinct ids. */
  lemma DistinctIds(a: Controller, b: Controller)
    requires a.ctrlId != b.ctrlId
    ensures ToPool(a).id != ToPool(b).id
  {
    Text.IntToDecimalInjective(a.ctrlId, b.ctrlId);
  }

  /** A controller without a flow sensor counts as having flow. */
  lemma MissingFlowSensorMeansFlow(c: Controller)
    requires c.sensors.None? || NoneNamedFrom(c.sensors.value, "Flujo", 0)
    ensures ToPool(c).tieneFlujo
  {
  }

  /** Only the first sensor of a given name is read; later duplicates are ignored. */
  lemma FirstSensorWins(c: Controller, i: nat, j: nat, name: string)
    requires c.sensors.Some? && i < j < |c.sensors.value|
    requires c.sensors.value[i].name == Some(name) && c.sensors.value[j].name == Some(name)
    requires forall k :: 0 <= k < i ==> c.sensors.value[k].name != Some(name)
    ensures FindSensor(c, name) == Some(c.sensors.value[i])
  {
    var ss := c.sensors.value;
    var r := FindFrom(ss, name, 0);
    if r.Some? && r.value != i {
      assert false;
    }
  }

  /**
   * The card shows what the page as written shows, except for an ORP reading
   * between the 0.5 and 1 ppm points of the selected curve, where the page
   * as written shows 4.0.
   */
  lemma ChlorineAsWrittenOffGap(c: Controller)
    ensures var p := ToPool(c);
      var row := Chlorine.SelectedRow(p.ph);
      && (!(row.at05 as real <= p.orp < row.at1 as real) ==> p.cloro == Chlorine.CalculatePPM(p.ph, p.orp))
      && (p.ph != 0.0 && row.at05 as real <= p.orp < row.at1 as real ==>
            p.cloro <= 1.0 && Chlorine.CalculatePPM(p.ph, p.orp) == 4.0)
  {
    var p := ToPool(c);
    if p.ph != 0.0 {
      Chlorine.SortedDiffersOnlyOnGap(p.ph, p.orp);
    }
  }
}
