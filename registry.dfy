/** The API registry of API.py: for every named piece of thermostat data,
    where it can be read, where it can be written, and how raw device codes
    translate to readable labels; one registry per supported model. */
module Registry {
  import opened Values

  /** A (URL, JSON key) pair. For a getter the key may be a slash-separated
      path into nested objects ("time/day"); for a setter it is the field
      written. */
  datatype Endpoint = Endpoint(location: string, key: string)

  /** A value map as (code, label) pairs, in the order Python iterates the
      dict (ascending integer codes for every map of the registry). */
  type ValueMap = seq<(Json, Json)>

  /** One entry of the registry (the APIEntry class). */
  datatype ApiEntry = ApiEntry(
    getters: seq<Endpoint>,
    setters: seq<Endpoint>,
    valueMap: Option<ValueMap>,
    usesJson: bool)

  /** A registry (the API class and its subclasses). */
  datatype Api = Api(
    models: seq<string>,
    successStrings: seq<string>,
    entries: map<string, ApiEntry>)

  // ---------------------------------------------------------------------
  // Value maps, read in both directions

  /** `valueMap[v]`: the label of code `v`, if `v` is a code. */
  function LabelOf(vm: ValueMap, v: Json): (r: Option<Json>)
    ensures r.None? <==> forall i :: 0 <= i < |vm| ==> vm[i].0 != v
    ensures r.Some? ==> exists i :: 0 <= i < |vm| && vm[i] == (v, r.value) &&
                                    forall j :: 0 <= j < i ==> vm[j].0 != v
    decreases |vm|
  {
    if vm == [] then None
    else if vm[0].0 == v then Some(vm[0].1)
    else
      LabelOf(vm[1..], v)
  }

  /** `inverse[v]` for `inverse = dict((v, k) for k, v in valueMap.iteritems())`:
      the code whose label is `v`. The dict is built in iteration order, so a
      later pair overwrites an earlier one with the same label. */
  function CodeOf(vm: ValueMap, v: Json): (r: Option<Json>)
    ensures r.None? <==> forall i :: 0 <= i < |vm| ==> vm[i].1 != v
    ensures r.Some? ==> exists i :: 0 <= i < |vm| && vm[i] == (r.value, v) &&
                                    forall j :: i < j < |vm| ==> vm[j].1 != v
    decreases |vm|
  {
    if vm == [] then None
    else if vm[|vm| - 1].1 == v then Some(vm[|vm| - 1].0)
    else
      CodeOf(vm[..|vm| - 1], v)
  }

  /** No code and no label occurs twice: the map can be read both ways. */
  ghost predicate Bijective(vm: ValueMap)
  {
    forall i, j :: 0 <= i < j < |vm| ==> vm[i].0 != vm[j].0 && vm[i].1 != vm[j].1
  }

  /** In a bijective map, reading a pair from either side gives the other. */
  lemma LookupBothWays(vm: ValueMap, i: int)
    requires Bijective(vm) && 0 <= i < |vm|
    ensures LabelOf(vm, vm[i].0) == Some(vm[i].1)
    ensures CodeOf(vm, vm[i].1) == Some(vm[i].0)
  {
  }

  // ---------------------------------------------------------------------
  // The registries

  /** The base API: it knows only how to read the model, which is all a
      client needs to pick the real registry. */
  function BaseApi(): Api
  {
    Api([], [], map["model" := ApiEntry([Endpoint("/tstat/model", "model")], [], None, true)])
  }

  function OffOn(): ValueMap { [(JInt(0), JStr("Off")), (JInt(1), JStr("On"))] }

  function FalseTrue(): ValueMap { [(JInt(0), JBool(false)), (JInt(1), JBool(true))] }

  function FanModes(): ValueMap { [(JInt(0), JStr("Auto")), (JInt(1), JStr("??")), (JInt(2), JStr("On"))] }

  function WeekDays(): ValueMap
  {
    [(JInt(0), JStr("Monday")), (JInt(1), JStr("Tuesday")), (JInt(2), JStr("Wednesday")),
     (JInt(3), JStr("Thursday")), (JInt(4), JStr("Friday")), (JInt(5), JStr("Saturday")),
     (JInt(6), JStr("Sunday"))]
  }

  function ErrorStates(): ValueMap { [(JInt(0), JStr("OK"))] }

  /** A read-only entry with one getter and no value map. */
  function ReadOnly(location: string, key: string): ApiEntry
  {
    ApiEntry([Endpoint(location, key)], [], None, true)
  }

  /** The fan mode: read from its own URL or the status document, written
      to its own URL, shown through the fan-mode labels. */
  function FanModeEntry(): ApiEntry
  {
    ApiEntry([Endpoint("/tstat/fmode", "fmode"), Endpoint("/tstat", "fmode")],
             [Endpoint("/tstat/fmode", "fmode")], Some(FanModes()), true)
  }

  /** A set point ("t_heat" or "t_cool"): read from /tstat/info or
      /tstat/ttemp, written to /tstat/ttemp. */
  function SetPointEntry(key: string): ApiEntry
  {
    ApiEntry([Endpoint("/tstat/info", key), Endpoint("/tstat/ttemp", key)],
             [Endpoint("/tstat/ttemp", key)], None, true)
  }

  /** The cloud mode: write-only, form-encoded under the field "command". */
  function CloudModeEntry(): ApiEntry
  {
    ApiEntry([], [Endpoint("/cloud/mode", "command")], None, false)
  }

  /** API_CT50v109: the full table. */
  function Ct50v109(): Api
  {
    Api(
      ["CT50 V1.09"],
      ["Tstat Command Processed",
       "Cloud updates have been suspended till reboot",
       "Cloud updates activated"],
      map[
        "fmode" := FanModeEntry(),
        "tmode" := ApiEntry([Endpoint("/tstat/tmode", "tmode"), Endpoint("/tstat", "tmode")],
                            [Endpoint("/tstat/tmode", "tmode")], Some(OffOn()), true),
        "temp" := ApiEntry([Endpoint("/tstat", "temp"), Endpoint("/temp", "temp")], [], None, true),
        "override" := ApiEntry([Endpoint("/tstat", "override"), Endpoint("/tstat/info", "override"),
                                Endpoint("/tstat/override", "override")],
                               [], Some(FalseTrue()), true),
        "hold" := ApiEntry([Endpoint("/tstat", "hold"), Endpoint("/tstat/info", "hold"),
                            Endpoint("/tstat/hold", "hold")],
                           [Endpoint("/tstat/hold", "hold")], Some(FalseTrue()), true),
        "t_heat" := SetPointEntry("t_heat"),
        "t_cool" := SetPointEntry("t_cool"),
        "tstate" := ApiEntry([Endpoint("/tstat", "tstate")], [], Some(OffOn()), true),
        "fstate" := ApiEntry([Endpoint("/tstat", "fstate")], [], Some(OffOn()), true),
        "day" := ApiEntry([Endpoint("/tstat", "time/day")], [], Some(WeekDays()), true),
        "hour" := ReadOnly("/tstat", "time/hour"),
        "minute" := ReadOnly("/tstat", "time/minute"),
        "today_heat_runtime" := ReadOnly("/tstat/datalog", "today/heat_runtime"),
        "today_cool_runtime" := ReadOnly("/tstat/datalog", "today/cool_runtime"),
        "yesterday_heat_runtime" := ReadOnly("/tstat/datalog", "yesterday/heat_runtime"),
        "yesterday_cool_runtime" := ReadOnly("/tstat/datalog", "yesterday/cool_runtime"),
        "errstatus" := ApiEntry([Endpoint("/tstat/errstatus", "errstatus")], [], Some(ErrorStates()), true),
        "model" := ReadOnly("/tstat/model", "model"),
        "power" := ApiEntry([Endpoint("/tstat/power", "power")], [Endpoint("/tstat/power", "power")], None, true),
        "cloud_mode" := CloudModeEntry()
      ])
  }

  /** API_CT30v192: inherits the CT50 table and changes only the models. */
  function Ct30v192(): Api
  {
    Ct50v109().(models := ["CT30 V1.92"])
  }

  /** `APIs`: the registries in the order `getAPI` tries them. */
  function Apis(): seq<Api>
  {
    [Ct50v109(), Ct30v192()]
  }

  /** `model in api.models`; a model that is not a string is never listed. */
  predicate Supports(api: Api, model: Json)
  {
    model.JStr? && model.s in api.models
  }

  /** The first registry of `apis` that lists `model`. */
  function FirstSupporting(apis: seq<Api>, model: Json): (r: Option<Api>)
    ensures r.None? <==> forall i :: 0 <= i < |apis| ==> !Supports(apis[i], model)
    ensures r.Some? ==> exists i :: 0 <= i < |apis| && apis[i] == r.value && Supports(apis[i], model) &&
                                    forall j :: 0 <= j < i ==> !Supports(apis[j], model)
  {
    match FirstWhere(apis, (a: Api) => Supports(a, model))
    case None => None
    case Some(i) => Some(apis[i])
  }

  /** `getAPI(model)`: the registry for a model, or None when no registry
      lists it. */
  function GetApi(model: Json): (r: Option<Api>)
    ensures r.Some? ==> r.value in Apis() && Supports(r.value, model)
  {
    FirstSupporting(Apis(), model)
  }

  lemma GetApiByModel(model: Json)
    ensures model == JStr("CT50 V1.09") ==> GetApi(model) == Some(Ct50v109())
    ensures model == JStr("CT30 V1.92") ==> GetApi(model) == Some(Ct30v192())
    ensures GetApi(model).Some? <==> model == JStr("CT50 V1.09") || model == JStr("CT30 V1.92")
  {
  }

  /** The CT30 registry differs from the CT50 one in its models only. */
  lemma Ct30SharesTable()
    ensures Ct30v192().entries == Ct50v109().entries
    ensures Ct30v192().successStrings == Ct50v109().successStrings
    ensures Ct30v192().models != Ct50v109().models
  {
  }

  /** The base registry resolves `model` and nothing else. */
  lemma BaseResolvesOnlyModel(key: string)
    ensures key in BaseApi().entries <==> key == "model"
    ensures key == "model" ==>
      BaseApi().entries[key] == ApiEntry([Endpoint("/tstat/model", "model")], [], None, true)
  {
  }

  /** The names that can only be read. */
  function ReadOnlyKeys(): set<string>
  {
    {"temp", "override", "tstate", "fstate", "day", "hour", "minute",
     "today_heat_runtime", "today_cool_runtime", "yesterday_heat_runtime",
     "yesterday_cool_runtime", "errstatus", "model"}
  }

  /** Exactly the read-only names have no setters. */
  lemma ReadOnlyEntriesHaveNoSetters(key: string)
    requires key in Ct50v109().entries
    ensures Ct50v109().entries[key].setters == [] <==> key in ReadOnlyKeys()
  {
  }

  /** No code is also a label: codes are integers, labels strings or
      booleans. */
  /** Every label can key the inverse map a write builds. */
  predicate LabelsHashable(vm: ValueMap)
  {
    forall i :: 0 <= i < |vm| ==> Hashable(vm[i].1)
  }

  ghost predicate CodesAreNotLabels(vm: ValueMap)
  {
    forall i, j :: 0 <= i < |vm| && 0 <= j < |vm| ==> vm[i].0 != vm[j].1
  }

  /** The value maps the table uses. */
  function StandardMaps(): seq<ValueMap>
  {
    [OffOn(), FalseTrue(), FanModes(), WeekDays(), ErrorStates()]
  }

  /** Every value map of the table is one of the standard maps ... */
  lemma TableUsesStandardMaps(key: string)
    requires key in Ct50v109().entries && Ct50v109().entries[key].valueMap.Some?
    ensures Ct50v109().entries[key].valueMap.value in StandardMaps()
  {
  }

  /** ... and each of them can be read both ways, with no value on both
      sides. */
  lemma StandardMapsReadable(vm: ValueMap)
    requires vm in StandardMaps()
    ensures Bijective(vm) && CodesAreNotLabels(vm)
    ensures LabelsHashable(vm) && forall i :: 0 <= i < |vm| ==> Hashable(vm[i].0)
  {
    if vm == WeekDays() {
      WeekDaysReadable();
    }
  }

  lemma WeekDaysReadable()
    ensures Bijective(WeekDays()) && CodesAreNotLabels(WeekDays())
  {
  }

  /** Entries as declared, for the examples. */
  lemma ExampleEntries()
    ensures Ct50v109().entries["fmode"] == FanModeEntry()
    ensures Ct50v109().entries["t_heat"] == SetPointEntry("t_heat")
    ensures Ct50v109().entries["t_cool"] == SetPointEntry("t_cool")
    ensures Ct50v109().entries["today_heat_runtime"] == ReadOnly("/tstat/datalog", "today/heat_runtime")
    ensures Ct50v109().entries["cloud_mode"] == CloudModeEntry()
  {
  }
}
