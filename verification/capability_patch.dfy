/** The DP-19 capability patch of custom_components/tuya/__init__.py: the
    status-report preprocessing that `patched_on_device_report` performs
    before delegating to the vendor client, and the descriptor injection done
    once at setup. The vendor client's device objects become immutable values
    and the in-place updates become functions returning the new values. */
module CapabilityPatch {
  import opened Basics

  /** The one device the patch targets. */
  const TARGET_DEVICE: string := "bffeaed51892c5c7bdxrae"
  /** The data point the vendor client does not map for that device. */
  const WORK_STATE_DP: int := 19
  /** The capability code the data point is coerced into. */
  const WORK_STATE: string := "work_state"

  /** A declared capability of a device (the vendor client's `DeviceFunction`). */
  datatype DeviceFunction = DeviceFunction(code: string, kind: string, values: string)

  /** The synthetic enum capability injected at setup. */
  const WORK_STATE_FUNCTION: DeviceFunction :=
    DeviceFunction(WORK_STATE, "Enum", "{\"range\":[\"heating\",\"stop\",\"idle\"]}")

  /** The initial value of the synthetic capability. */
  const WORK_STATE_DEFAULT: Json := JStr("stop")

  /** The parts of a vendor device descriptor the patch reads or writes:
      capability code to declared function, data point to capability code,
      and capability code to current value. */
  datatype Device = Device(
    functions: map<string, DeviceFunction>,
    statusRange: map<int, string>,
    status: map<string, Json>)

  type DeviceMap = map<string, Device>

  /** One element of a status report: either a dictionary of fields
      (`dpId`, `code`, `value`, ...) or something that is not a dictionary. */
  datatype StatusItem = DictItem(fields: map<string, Json>) | OtherItem(raw: Json)

  /** A dictionary item whose `dpId` field equals 19. */
  predicate IsWorkStateItem(item: StatusItem)
  {
    item.DictItem? && "dpId" in item.fields && item.fields["dpId"] == JInt(WORK_STATE_DP)
  }

  /** `item.get('value')`: the reported value, or null when the field is missing. */
  function ReportedValue(item: StatusItem): Json
    requires item.DictItem?
  {
    if "value" in item.fields then item.fields["value"] else JNull
  }

  /** The per-item fix: a DP-19 item without a code gets the work_state code. */
  function TagItem(item: StatusItem): (r: StatusItem)
    ensures !IsWorkStateItem(item) ==> r == item
    ensures IsWorkStateItem(item) ==> IsWorkStateItem(r) && "code" in r.fields
    ensures IsWorkStateItem(item) && "code" in item.fields ==> r == item
    ensures IsWorkStateItem(item) && "code" !in item.fields ==>
              r.fields["code"] == JStr(WORK_STATE)
              && r.fields.Keys == item.fields.Keys + {"code"}
              && forall f :: f in item.fields ==> r.fields[f] == item.fields[f]
    ensures r.DictItem? ==> ReportedValue(r) == ReportedValue(item)
  {
    if IsWorkStateItem(item) && "code" !in item.fields then
      DictItem(item.fields["code" := JStr(WORK_STATE)])
    else
      item
  }

  /** The position of the last DP-19 item of a report, if there is one. */
  function LastWorkStateIndex(items: seq<StatusItem>): (r: Option<nat>)
    ensures r.None? <==> forall i :: 0 <= i < |items| ==> !IsWorkStateItem(items[i])
    ensures r.Some? ==> r.value < |items| && IsWorkStateItem(items[r.value])
    ensures r.Some? ==> forall j :: r.value < j < |items| ==> !IsWorkStateItem(items[j])
  {
    if items == [] then None
    else if IsWorkStateItem(items[|items| - 1]) then Some(|items| - 1)
    else LastWorkStateIndex(items[..|items| - 1])
  }

  /** The `for item in status` loop: tag every item in turn and write each DP-19
      value into the device status, so the last one wins. */
  function ScanReport(items: seq<StatusItem>, status: map<string, Json>): (r: (seq<StatusItem>, map<string, Json>))
    ensures |r.0| == |items|
    ensures forall i :: 0 <= i < |items| ==> r.0[i] == TagItem(items[i])
    ensures LastWorkStateIndex(items).None? ==> r.1 == status
    ensures LastWorkStateIndex(items).Some? ==>
              r.1 == status[WORK_STATE := ReportedValue(items[LastWorkStateIndex(items).value])]
  {
    if items == [] then ([], status)
    else
      var last := items[|items| - 1];
      var prefix := ScanReport(items[..|items| - 1], status);
      var status' := if IsWorkStateItem(last) then prefix.1[WORK_STATE := ReportedValue(last)] else prefix.1;
      (prefix.0 + [TagItem(last)], status')
  }

  /** The patch acts only on the hard-coded device, and only when the vendor
      client knows it. */
  predicate PatchApplies(deviceId: string, deviceMap: DeviceMap)
  {
    deviceId == TARGET_DEVICE && TARGET_DEVICE in deviceMap
  }

  /** The preprocessing of `patched_on_device_report`: returns the device map
      and the status list that the vendor client's own handler then receives. */
  function PreprocessReport(deviceId: string, deviceMap: DeviceMap, items: seq<StatusItem>): (r: (DeviceMap, seq<StatusItem>))
    ensures !PatchApplies(deviceId, deviceMap) ==> r == (deviceMap, items)
    ensures r.0.Keys == deviceMap.Keys
    ensures forall d :: d in deviceMap && d != TARGET_DEVICE ==> r.0[d] == deviceMap[d]
    ensures |r.1| == |items|
    ensures PatchApplies(deviceId, deviceMap) ==>
              forall i :: 0 <= i < |items| ==> r.1[i] == TagItem(items[i])
    ensures PatchApplies(deviceId, deviceMap) ==>
              var before, after := deviceMap[TARGET_DEVICE], r.0[TARGET_DEVICE];
              && after.functions == before.functions
              && WORK_STATE_DP in after.statusRange
              && (WORK_STATE_DP in before.statusRange ==> after.statusRange == before.statusRange)
              && (WORK_STATE_DP !in before.statusRange ==>
                    after.statusRange == before.statusRange[WORK_STATE_DP := WORK_STATE])
              && (match LastWorkStateIndex(items)
                  case None => after.status == before.status
                  case Some(i) => after.status == before.status[WORK_STATE := ReportedValue(items[i])])
  {
    if PatchApplies(deviceId, deviceMap) then
      var device := deviceMap[TARGET_DEVICE];
      var range := if WORK_STATE_DP !in device.statusRange then device.statusRange[WORK_STATE_DP := WORK_STATE]
                   else device.statusRange;
      var scanned := ScanReport(items, device.status);
      (deviceMap[TARGET_DEVICE := device.(statusRange := range, status := scanned.1)], scanned.0)
    else
      (deviceMap, items)
  }

  /** The replaced `_on_device_report`: preprocess, then hand the result to the
      vendor client's original handler, which the model leaves uninterpreted. */
  function PatchedOnDeviceReport<R>(original: (string, DeviceMap, seq<StatusItem>) -> R,
                                    deviceId: string, deviceMap: DeviceMap, items: seq<StatusItem>): (r: R)
    ensures !PatchApplies(deviceId, deviceMap) ==> r == original(deviceId, deviceMap, items)
    ensures PatchApplies(deviceId, deviceMap) ==>
              r == original(deviceId, PreprocessReport(deviceId, deviceMap, items).0,
                            PreprocessReport(deviceId, deviceMap, items).1)
  {
    var pre := PreprocessReport(deviceId, deviceMap, items);
    original(deviceId, pre.0, pre.1)
  }

  /** The setup-time injection into the target device's descriptor. */
  function InjectWorkState(deviceMap: DeviceMap): (r: DeviceMap)
    ensures TARGET_DEVICE !in deviceMap ==> r == deviceMap
    ensures r.Keys == deviceMap.Keys
    ensures forall d :: d in deviceMap && d != TARGET_DEVICE ==> r[d] == deviceMap[d]
    ensures TARGET_DEVICE in deviceMap ==>
              var before, after := deviceMap[TARGET_DEVICE], r[TARGET_DEVICE];
              && (WORK_STATE in before.functions ==> after.functions == before.functions)
              && (WORK_STATE !in before.functions ==>
                    after.functions == before.functions[WORK_STATE := WORK_STATE_FUNCTION])
              && after.statusRange == before.statusRange[WORK_STATE_DP := WORK_STATE]
              && (WORK_STATE in before.status ==> after.status == before.status)
              && (WORK_STATE !in before.status ==>
                    after.status == before.status[WORK_STATE := WORK_STATE_DEFAULT])
  {
    if TARGET_DEVICE in deviceMap then
      var device := deviceMap[TARGET_DEVICE];
      var functions := if WORK_STATE !in device.functions then device.functions[WORK_STATE := WORK_STATE_FUNCTION]
                       else device.functions;
      var range := device.statusRange[WORK_STATE_DP := WORK_STATE];
      var status := if WORK_STATE !in device.status then device.status[WORK_STATE := WORK_STATE_DEFAULT]
                    else device.status;
      deviceMap[TARGET_DEVICE := Device(functions, range, status)]
    else
      deviceMap
  }

  /** The target device, when present, carries the synthetic work_state
      function, the 19 -> work_state mapping and a work_state value. */
  ghost predicate WorkStateReady(deviceMap: DeviceMap)
  {
    TARGET_DEVICE in deviceMap ==>
      var device := deviceMap[TARGET_DEVICE];
      && WORK_STATE in device.functions
      && WORK_STATE_DP in device.statusRange
      && device.statusRange[WORK_STATE_DP] == WORK_STATE
      && WORK_STATE in device.status
  }

  /** Setup establishes readiness and is harmless to repeat. */
  lemma InjectEstablishesReady(deviceMap: DeviceMap)
    ensures WorkStateReady(InjectWorkState(deviceMap))
    ensures InjectWorkState(InjectWorkState(deviceMap)) == InjectWorkState(deviceMap)
  {
    var once := InjectWorkState(deviceMap);
    if TARGET_DEVICE in deviceMap {
      var device := once[TARGET_DEVICE];
      var twice := InjectWorkState(once);
      assert device.statusRange[WORK_STATE_DP := WORK_STATE] == device.statusRange;
      assert twice[TARGET_DEVICE] == device;
    }
  }

  /** Report preprocessing keeps readiness, and on a ready device it never
      touches the data-point mapping. */
  lemma PreprocessPreservesReady(deviceId: string, deviceMap: DeviceMap, items: seq<StatusItem>)
    requires WorkStateReady(deviceMap)
    ensures WorkStateReady(PreprocessReport(deviceId, deviceMap, items).0)
    ensures TARGET_DEVICE in deviceMap ==>
              PreprocessReport(deviceId, deviceMap, items).0[TARGET_DEVICE].statusRange
              == deviceMap[TARGET_DEVICE].statusRange
  {
  }

  /** Tagging a tagged item changes nothing. */
  lemma TagItemIdempotent(item: StatusItem)
    ensures TagItem(TagItem(item)) == TagItem(item)
  {
  }

  /** Preprocessing the same report twice has the effect of preprocessing it once. */
  lemma PreprocessIdempotent(deviceId: string, deviceMap: DeviceMap, items: seq<StatusItem>)
    ensures var once := PreprocessReport(deviceId, deviceMap, items);
            PreprocessReport(deviceId, once.0, once.1) == once
  {
    var once := PreprocessReport(deviceId, deviceMap, items);
    if PatchApplies(deviceId, deviceMap) {
      forall i | 0 <= i < |items|
        ensures IsWorkStateItem(once.1[i]) == IsWorkStateItem(items[i])
        ensures IsWorkStateItem(items[i]) ==> ReportedValue(once.1[i]) == ReportedValue(items[i])
      {
      }
      SameWorkStateItems(items, once.1);
      var twice := PreprocessReport(deviceId, once.0, once.1);
      forall i | 0 <= i < |items|
        ensures twice.1[i] == once.1[i]
      {
        TagItemIdempotent(items[i]);
      }
      assert twice.1 == once.1;
      var device := once.0[TARGET_DEVICE];
      match LastWorkStateIndex(items)
      case None =>
        assert twice.0[TARGET_DEVICE] == device;
        assert twice.0 == once.0;
      case Some(i) =>
        var v := ReportedValue(items[i]);
        assert ReportedValue(once.1[i]) == v;
        assert device.status[WORK_STATE := v] == device.status;
        assert twice.0[TARGET_DEVICE] == device;
        assert twice.0 == once.0;
    }
  }

  /** Two reports of equal length whose DP-19 items sit at the same positions
      have their last DP-19 item at the same position. */
  lemma SameWorkStateItems(a: seq<StatusItem>, b: seq<StatusItem>)
    requires |a| == |b|
    requires forall i :: 0 <= i < |a| ==> IsWorkStateItem(a[i]) == IsWorkStateItem(b[i])
    ensures LastWorkStateIndex(a) == LastWorkStateIndex(b)
  {
  }
}
