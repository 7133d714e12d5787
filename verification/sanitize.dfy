/**
 * How the backend cleans database rows before sending them to the
 * dashboard: internal fields are stripped from controller, sensor and user
 * records, each sensor gets its latest reading, numeric codes are replaced
 * by readable labels, and the users table's email column is located by name.
 */
module Sanitize {
  import opened Basics
  import Text

  /** The seven controller columns whose numeric codes are replaced by labels. */
  datatype Code = Status | Model | CustomType | Indoor | Climatized | WaterType | MaterialType

  /** The other columns the backend names, each spelled as the column is. */
  datatype Field =
    // controller columns
    | Enabled | AppType | SwVersion | HwVersion | LocalAccess
    | LocalConfigChanged | RemoteConfigChanged | LastReport | TimeZone
    | RemoteIp | RemotePort | CtrlImage | CustomImage | GroupId
    | TokenId | ActivationCode | CalibrationCode | EncKey
    | ComTimeout | City | MacAddress
    // sensor columns
    | EventGeneration | AlarmGeneration | ActiveStationRequired
    | MatureTime | DematureTime | CtrlId | UpperThEnabled
    | BottomThEnabled | Value | SlopeFactor | OffsetFactor | Units
    // user columns
    | UserParent | UserType | State | Country | Birthdate | LastSession
    | Phone | ConfirmToken | ConfirmDate | RecoverToken | RecoverDate | Language

  /**
   * A key of a row: a coded column, another named column, the "sensors"
   * list the backend attaches to a controller, or any other column.
   */
  datatype Key = Coded(code: Code) | Named(field: Field) | Sensors | Column(name: string)

  /** A column value, as JSON will carry it. */
  datatype Json = Null | Int(i: int) | Str(s: string) | Real(r: real) | Rows(rows: seq<map<Key, Json>>)

  /** A database row: column to value. */
  type Record = map<Key, Json>

  /** The backend's list of controller columns that are never sent to the dashboard. */
  predicate CtrlFieldToRemove(k: Key) {
    k.Named? &&
    match k.field
    case Enabled | AppType | SwVersion | HwVersion | LocalAccess
       | LocalConfigChanged | RemoteConfigChanged | LastReport | TimeZone
       | RemoteIp | RemotePort | CtrlImage | CustomImage | GroupId
       | TokenId | ActivationCode | CalibrationCode | EncKey
       | ComTimeout | City | MacAddress => true
    case _ => false
  }

  /** The backend's list of sensor columns that are never sent ("Value" is then refilled). */
  predicate SensorFieldToRemove(k: Key) {
    k.Named? &&
    match k.field
    case EventGeneration | AlarmGeneration | ActiveStationRequired
       | MatureTime | DematureTime | CtrlId | UpperThEnabled
       | BottomThEnabled | Value | SlopeFactor | OffsetFactor | Units => true
    case _ => false
  }

  /** The backend's list of user columns that are never sent. */
  predicate UserFieldToRemove(k: Key) {
    k.Named? &&
    match k.field
    case UserParent | UserType | AppType | City | State | Country
       | Birthdate | LastSession | TokenId | Enabled | Phone
       | ConfirmToken | ConfirmDate | RecoverToken | TimeZone
       | RecoverDate | Language => true
    case _ => false
  }

  /**
   * A controller keeps its id, its coded fields and the attached sensor
   * list, while a sensor loses its controller id and its stored value.
   */
  lemma FieldListsShape()
    ensures SensorFieldToRemove(Named(Value)) && SensorFieldToRemove(Named(CtrlId))
    ensures !CtrlFieldToRemove(Named(CtrlId)) && !CtrlFieldToRemove(Sensors)
    ensures forall c :: !CtrlFieldToRemove(Coded(c))
  {
  }

  /**
   * `for field in fields: if field in rec: del rec[field]` — the record
   * without the listed fields, every other field untouched.
   */
  function RemoveFields(rec: Record, listed: Key -> bool): (r: Record)
    ensures forall k :: k in r <==> k in rec && !listed(k)
    ensures forall k :: k in r ==> r[k] == rec[k]
  {
    map k | k in rec && !listed(k) :: rec[k]
  }

  /** The label tables. */
  const StatusMap: map<int, string> := map[0 := "Desasociado", 1 := "Conectado", 2 := "Desconectado"]
  const ModelMap: map<int, string> := map[4 := "Pool Xpert R2", 6 := "Pool Xpert S2", 8 := "Clorador Px",
                                          1 := "Cloradores", 2 := "Submarino", 9 := "Submarino mini"]
  const CustomTypeMap: map<int, string> := map[0 := "Pool Xpert", 1 := "Tessel", 2 := "Nataclor"]
  const IndoorMap: map<int, string> := map[0 := "Exterior", 1 := "Interior"]
  const ClimatizedMap: map<int, string> := map[0 := "No", 1 := "Si"]
  const WaterTypeMap: map<int, string> := map[0 := "Agua de red", 1 := "Agua de pozo"]
  const MaterialTypeMap: map<int, string> := map[0 := "Desconocido", 1 := "Cemento", 2 := "Fibra", 3 := "Lona", 4 := "Otra"]

  /** The label table of each coded column. */
  function TableOf(c: Code): map<int, string> {
    match c
    case Status => StatusMap
    case Model => ModelMap
    case CustomType => CustomTypeMap
    case Indoor => IndoorMap
    case Climatized => ClimatizedMap
    case WaterType => WaterTypeMap
    case MaterialType => MaterialTypeMap
  }

  /** The coded columns in the order the backend relabels them. */
  const RelabelOrder: seq<Code> := [Status, Model, CustomType, Indoor, Climatized, WaterType, MaterialType]

  /** Every coded column is relabelled. */
  lemma RelabelOrderComplete()
    ensures forall c: Code :: c in RelabelOrder
  {
    forall c: Code
      ensures c in RelabelOrder
    {
      var i := match c
        case Status => 0 case Model => 1 case CustomType => 2 case Indoor => 3
        case Climatized => 4 case WaterType => 5 case MaterialType => 6;
      assert RelabelOrder[i] == c;
    }
  }

  /** `rec.get(key)`: the field's value, or null when it is missing. */
  function Lookup(rec: Record, key: Key): Json {
    if key in rec then rec[key] else Null
  }

  /**
   * The integer key a value matches in a Python dict: keys compare by
   * numeric equality, so a whole-number float or decimal finds the int key.
   */
  function DictKey(v: Json): Option<int> {
    if v.Int? then Some(v.i)
    else if v.Real? && v.r.Floor as real == v.r then Some(v.r.Floor)
    else None
  }

  /** `table.get(v, v)`: a known code becomes its label; anything else passes through. */
  function Relabel(table: map<int, string>, v: Json): Json {
    var k := DictKey(v);
    if k.Some? && k.value in table then Str(table[k.value]) else v
  }

  /**
   * A number is relabelled by its numeric value: a whole-number real whose
   * integer is a code gets that code's label, like the integer itself, and
   * any other real passes through.
   */
  lemma RelabelNumeric(table: map<int, string>, r: real)
    ensures forall k: int :: r == k as real && k in table ==> Relabel(table, Real(r)) == Relabel(table, Int(k)) == Str(table[k])
    ensures (forall k: int :: r == k as real ==> k !in table) ==> Relabel(table, Real(r)) == Real(r)
  {
    forall k: int | r == k as real
      ensures DictKey(Real(r)) == Some(k)
    {
      assert r.Floor == k;
    }
  }

  /** Relabelling an already relabelled value changes nothing. */
  lemma RelabelIdempotent(table: map<int, string>, v: Json)
    ensures Relabel(table, Relabel(table, v)) == Relabel(table, v)
  {
  }

  /** `rec[key] = table.get(rec.get(key), rec.get(key))`: a missing field is written as null. */
  function RelabelField(rec: Record, c: Code): Record {
    rec[Coded(c) := Relabel(TableOf(c), Lookup(rec, Coded(c)))]
  }

  /**
   * The relabelling assignments for `codes`, in order. Each listed column
   * ends up present, holding the label of its original code (or the
   * original value, or null); every other field is untouched. A column
   * listed twice is relabelled twice, which changes nothing more.
   */
  function {:induction false} RelabelAll(rec: Record, codes: seq<Code>): (r: Record)
    ensures forall k :: k in r <==> k in rec || (k.Coded? && k.code in codes)
    ensures forall c :: c in codes ==> r[Coded(c)] == Relabel(TableOf(c), Lookup(rec, Coded(c)))
    ensures forall k :: k in rec && !(k.Coded? && k.code in codes) ==> r[k] == rec[k]
  {
    if codes == [] then rec
    else
      var init := codes[..|codes| - 1];
      var c := codes[|codes| - 1];
      var prev := RelabelAll(rec, init);
      assert forall d :: d in codes <==> d in init || d == c;
      RelabelIdempotent(TableOf(c), Lookup(rec, Coded(c)));
      RelabelField(prev, c)
  }

  /**
   * The seven relabelling assignments: every coded column ends up present
   * and relabelled from its own original value; every other field is
   * untouched.
   */
  function RelabelCodes(rec: Record): (r: Record)
    ensures forall k :: k in r <==> k in rec || k.Coded?
    ensures forall c :: r[Coded(c)] == Relabel(TableOf(c), Lookup(rec, Coded(c)))
    ensures forall k :: k in rec && !k.Coded? ==> r[k] == rec[k]
  {
    RelabelOrderComplete();
    RelabelAll(rec, RelabelOrder)
  }

  /** Relabelling twice is relabelling once: labels and nulls pass through the tables. */
  lemma RelabelCodesIdempotent(rec: Record)
    ensures RelabelCodes(RelabelCodes(rec)) == RelabelCodes(rec)
  {
    var r := RelabelCodes(rec);
    var rr := RelabelCodes(r);
    forall k | k in r
      ensures k in rr && rr[k] == r[k]
    {
      if k.Coded? {
        RelabelIdempotent(TableOf(k.code), Lookup(rec, k));
      }
    }
    assert rr.Keys == r.Keys;
  }

  /** A sensor row with its internal fields stripped and "Value" set to its latest reading, if any. */
  function SanitizeSensor(sensor: Record, latest: Option<Json>): (r: Record)
    ensures forall k :: k in r <==> (k in sensor && !SensorFieldToRemove(k)) || k == Named(Value)
    ensures r[Named(Value)] == latest.GetOr(Null)
    ensures forall k :: k in r && k != Named(Value) ==> r[k] == sensor[k]
  {
    RemoveFields(sensor, SensorFieldToRemove)[Named(Value) := latest.GetOr(Null)]
  }

  /** Every sensor row sanitised, with its latest reading, in the order given. */
  function SanitizeSensors(sensors: seq<(Record, Option<Json>)>): (r: seq<Record>)
    ensures |r| == |sensors|
    ensures forall i :: 0 <= i < |sensors| ==> r[i] == SanitizeSensor(sensors[i].0, sensors[i].1)
  {
    seq(|sensors|, i requires 0 <= i < |sensors| => SanitizeSensor(sensors[i].0, sensors[i].1))
  }

  /** A controller row with its internal fields stripped and its sanitised sensors attached. */
  function StripController(ctrl: Record, sensors: seq<(Record, Option<Json>)>): (r: Record)
    ensures forall k :: k in r <==> (k in ctrl && !CtrlFieldToRemove(k)) || k == Sensors
    ensures r[Sensors] == Rows(SanitizeSensors(sensors))
    ensures forall k :: k in r && k != Sensors ==> r[k] == ctrl[k]
  {
    RemoveFields(ctrl, CtrlFieldToRemove)[Sensors := Rows(SanitizeSensors(sensors))]
  }

  /**
   * A controller row as sent to the dashboard: internal fields stripped, its
   * sanitised sensors attached under "sensors", and the coded fields
   * relabelled from the controller's own codes. `sensors` pairs each sensor
   * row with its latest reading.
   */
  function SanitizeController(ctrl: Record, sensors: seq<(Record, Option<Json>)>): (r: Record)
    ensures forall k :: k in r <==> (k in ctrl && !CtrlFieldToRemove(k)) || k == Sensors || k.Coded?
    ensures r[Sensors] == Rows(SanitizeSensors(sensors))
    ensures forall c :: r[Coded(c)] == Relabel(TableOf(c), Lookup(ctrl, Coded(c)))
    ensures forall k :: k in r && k != Sensors && !k.Coded? ==> r[k] == ctrl[k]
  {
    FieldListsShape();
    RelabelCodes(StripController(ctrl, sensors))
  }

  /** The status labels: codes 0, 1 and 2 are named, and only code 0 or the label itself reads "Desasociado". */
  lemma StatusRelabel(v: Json)
    ensures v == Int(0) ==> Relabel(StatusMap, v) == Str("Desasociado")
    ensures v == Int(1) ==> Relabel(StatusMap, v) == Str("Conectado")
    ensures v == Int(2) ==> Relabel(StatusMap, v) == Str("Desconectado")
    ensures v == Real(0.0) ==> Relabel(StatusMap, v) == Str("Desasociado")
    ensures Relabel(StatusMap, v) == Str("Desasociado") <==> v == Int(0) || v == Real(0.0) || v == Str("Desasociado")
  {
    assert "Conectado"[0] != "Desasociado"[0];
    assert "Desconectado"[3] != "Desasociado"[3];
  }

  /** The controller's status after sanitising, as the dashboard's filter sees it. */
  lemma StatusLabels(ctrl: Record, sensors: seq<(Record, Option<Json>)>)
    ensures var r := SanitizeController(ctrl, sensors);
      var code := Lookup(ctrl, Coded(Status));
      && Coded(Status) in r
      && (code == Int(0) ==> r[Coded(Status)] == Str("Desasociado"))
      && (code == Int(1) ==> r[Coded(Status)] == Str("Conectado"))
      && (code == Int(2) ==> r[Coded(Status)] == Str("Desconectado"))
      && (Coded(Status) !in ctrl ==> r[Coded(Status)] == Null)
      && (r[Coded(Status)] == Str("Desasociado") <==> code == Int(0) || code == Real(0.0) || code == Str("Desasociado"))
  {
    var r := SanitizeController(ctrl, sensors);
    assert r[Coded(Status)] == Relabel(StatusMap, Lookup(ctrl, Coded(Status)));
    StatusRelabel(Lookup(ctrl, Coded(Status)));
  }

  /** A user row with its internal fields stripped. */
  function SanitizeUser(user: Record): (r: Record)
    ensures forall k :: k in r <==> k in user && !UserFieldToRemove(k)
    ensures forall k :: k in r ==> r[k] == user[k]
  {
    RemoveFields(user, UserFieldToRemove)
  }

  /** A column name that mentions "mail" in any letter case. */
  predicate IsEmailColumn(col: string) {
    Text.Contains(Text.ToLower(col), "mail")
  }

  /** The refusal when the users table has no email column (HTTP 500). */
  datatype ServerError = ServerError(status: int, detail: string)

  /** The first email column of the users table, or a server error when there is none. */
  function FindEmailColumn(columns: seq<string>): (r: Result<string, ServerError>)
    ensures r.Ok? ==> exists i :: 0 <= i < |columns| && columns[i] == r.value && IsEmailColumn(columns[i])
                                  && forall j :: 0 <= j < i ==> !IsEmailColumn(columns[j])
    ensures r.Err? <==> forall i :: 0 <= i < |columns| ==> !IsEmailColumn(columns[i])
    ensures r.Err? ==> r.error.status == 500
  {
    if columns == [] then Err(ServerError(500, "No se encontró columna de email en Users"))
    else if IsEmailColumn(columns[0]) then Ok(columns[0])
    else
      var rest := FindEmailColumn(columns[1..]);
      if rest.Ok? then
        assert forall j :: 1 <= j < |columns| ==> columns[j] == columns[1..][j - 1];
        Ok(rest.value)
      else rest
  }

  /** Upper-case names are found too: "UserEMail" is the email column of ["UserId", "UserEMail"]. */
  lemma EmailColumnCaseInsensitive()
    ensures FindEmailColumn(["UserId", "UserEMail"]) == Ok("UserEMail")
  {
    assert Text.ToLower("UserEMail") == "useremail";
    assert Text.OccursAt("useremail", "mail", 5);
    assert Text.ToLower("UserId") == "userid";
    forall i | 0 <= i <= |"userid"|
      ensures !Text.OccursAt("userid", "mail", i)
    {
      if i <= 2 {
        assert "userid"[i..i + 4][0] == "userid"[i] != 'm';
      }
    }
  }
}
