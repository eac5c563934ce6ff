# Tuya integration: registry reconciliation and DP-19 capability patch

This project models the small pieces of data logic in the Home Assistant Tuya
integration's `custom_components/tuya/__init__.py`. Everything else in that
file is glue between Home Assistant and the Tuya sharing SDK. The modelled
pieces are:

- **Registry reconciliation** (`DeviceRegistry`). The host's device registry
  is a map from entry id to the set of `(domain, device id)` identifiers the
  entry carries. `cleanup_device_registry` removes every entry that has a
  `("tuya", id)` identifier whose `id` is not a device the vendor client
  knows. `DeviceListener.async_remove_device` removes the one entry carrying
  `("tuya", device_id)`. The source's two nested loops are methods with loop
  invariants. `Reconcile` is their reference definition, and the lemmas are
  stated about it.
- **DP-19 capability patch** (`CapabilityPatch`). For the hard-coded device
  `bffeaed51892c5c7bdxrae`, the patched report handler first adds the
  mapping 19 → `work_state` if data point 19 has no mapping; an existing
  mapping is kept, whatever code it names. It then tags every DP-19 status
  item that has no `code` field with `code = "work_state"`, and copies the
  value of every DP-19 item, tagged or not, into the device's `work_state`
  status, so the last one wins. Only after that
  does it delegate to the vendor client's own handler, which receives the
  updated device map and status list. At setup, the same device gets a
  synthetic `work_state` enum function when it has none, the mapping
  19 → `work_state` (overwriting any existing one), and a `"stop"`
  `work_state` status when it has none. Device descriptors are immutable
  values, and each in-place update becomes a function that returns the new
  device map and status list.
- **Token merge** (`TokenStore`). `TokenListener.update_token` copies the
  config-entry data and replaces its token record with exactly five fields
  from the refresh payload.
- **Setup error path and data flow** (`EntrySetup`). A failed device-cache
  refresh whose message contains `"sign invalid"` becomes a re-authentication
  failure. Any other failure propagates unchanged. After a successful refresh,
  the DP-19 injection runs and then the registry is reconciled.

Shared value types (`Option`, `Result`, and a JSON scalar `Json`) are in
`Basics`. Python's `None`, which `dict.get` returns for a missing key, is
`JNull`.

The host registry keeps every identifier on at most one entry. The model
states this as the ghost predicate `UniqueIdentifiers`, and the
identifier lookup requires it. Without it, "the entry identified by
`(DOMAIN, id)`" would not be a single entry.

Setup overwrites the 19 → `work_state` mapping unconditionally
(`__init__.py:190-191`); only the report path (`__init__.py:121-122`) keeps
an existing mapping.

## Model

| member | source | states |
|---|---|---|
| DeviceRegistry.FindStaleIdentifier | custom_components/tuya/__init__.py:242-245 | The identifier scan, which stops at the first match, reports true exactly when the entry has a `("tuya", id)` identifier with `id` not among the known devices. |
| DeviceRegistry.CleanupDeviceRegistry | custom_components/tuya/__init__.py:238-245 | After the walk over a snapshot of the entries, an entry remains exactly when it was present and none of its identifiers is stale. Every surviving entry is unchanged. The result equals the reference `Reconcile`. |
| DeviceRegistry.Reconcile | custom_components/tuya/__init__.py:238-245 | The reconciled registry satisfies the invariant that every `tuya` identifier names a known device. It adds no entry and edits none: every surviving entry is unchanged, so an entry with a stale identifier is deleted whole. Every entry without a stale identifier is kept, including entries with no `tuya` identifier. |
| DeviceRegistry.ReconcileIdempotent | custom_components/tuya/__init__.py:238-245 | A second reconciliation with the same known-device set removes nothing. |
| DeviceRegistry.ReconcileFixedPoint | custom_components/tuya/__init__.py:238-245 | Reconciliation leaves the registry unchanged if and only if it already satisfies the invariant. |
| DeviceRegistry.ReconcilePreservesUnique | custom_components/tuya/__init__.py:238-245 | Reconciliation keeps the host's rule that an identifier sits on at most one entry. |
| DeviceRegistry.GetDevice | custom_components/tuya/__init__.py:332-335 | Lookup by identifier finds an entry if and only if some entry carries that identifier, and the entry it returns carries it. |
| DeviceRegistry.RemoveDevice | custom_components/tuya/__init__.py:328-337 | An entry is removed if and only if it carries `("tuya", device_id)`. At most one entry is removed. Every other entry is untouched, and the registry is unchanged when no entry matches. |
| DeviceRegistry.RemoveMatchesReconcile | custom_components/tuya/__init__.py:328-337 | On a consistent registry, a removal event for a device equals reconciling against the known set without that device, so a removal event restores the invariant. |
| DeviceRegistry.RemoveDeviceIdempotent | custom_components/tuya/__init__.py:328-337 | Removal keeps identifiers unique, and removing the same device twice has the same effect as removing it once. |
| CapabilityPatch.TagItem | custom_components/tuya/__init__.py:126-130 | A DP-19 dictionary item without `code` gains `code = "work_state"` and keeps all its other fields. A DP-19 item that has a `code` keeps it unchanged. Items with another `dpId`, and non-dictionary items, are unchanged. The reported value is never altered. |
| CapabilityPatch.LastWorkStateIndex | custom_components/tuya/__init__.py:126-137 | Returns none if and only if the report has no DP-19 item. Otherwise it returns the position of a DP-19 item with no DP-19 item after it. |
| CapabilityPatch.ScanReport | custom_components/tuya/__init__.py:126-138 | The loop returns every item tagged, position by position. The `work_state` status equals the value of the last DP-19 item, or the status is unchanged when there is no such item. |
| CapabilityPatch.PreprocessReport | custom_components/tuya/__init__.py:112-139 | When the device is not the target, or the target is absent from the device map, the map and the list are returned unchanged. Otherwise other devices and the target's functions are untouched. `status_range[19]` becomes `work_state` only if it was absent, so an existing mapping is kept. The items are tagged, and `status["work_state"]` is the value of the last DP-19 item, or the status is unchanged when there is none. |
| CapabilityPatch.PatchedOnDeviceReport | custom_components/tuya/__init__.py:112-141 | For the target device present in the device map, the original handler receives exactly the map and list that `PreprocessReport` produces, so the `work_state` status is written before it runs. For any other case it receives the unmodified arguments. |
| CapabilityPatch.InjectWorkState | custom_components/tuya/__init__.py:175-199 | If the target is absent, nothing changes. Otherwise `function["work_state"]` is the synthetic enum unless an entry already existed, in which case it is kept. `status_range[19]` is overwritten with `work_state`. `status["work_state"]` becomes `"stop"` unless it already had a value, which is kept. Other devices are untouched. |
| CapabilityPatch.InjectEstablishesReady | custom_components/tuya/__init__.py:175-199 | After setup, the target device carries the `work_state` function, mapping and status, and a second injection changes nothing. |
| CapabilityPatch.PreprocessPreservesReady | custom_components/tuya/__init__.py:116-122 | Report preprocessing keeps the target device ready. On a ready device it never changes `status_range`. |
| CapabilityPatch.TagItemIdempotent | custom_components/tuya/__init__.py:126-130 | Tagging an already tagged item changes nothing. |
| CapabilityPatch.PreprocessIdempotent | custom_components/tuya/__init__.py:112-139 | Preprocessing the preprocessed map and list again returns them unchanged. |
| CapabilityPatch.SameWorkStateItems | custom_components/tuya/__init__.py:126-137 | Two equal-length reports with DP-19 items at the same positions have their last DP-19 item at the same position. |
| TokenStore.FirstMissing | custom_components/tuya/__init__.py:356-362 | Returns none if and only if the payload holds every token field. Otherwise it returns the first field, in the order the source reads them, that is missing while all earlier fields are present. |
| TokenStore.UpdateToken | custom_components/tuya/__init__.py:352-363 | The merge succeeds if and only if the payload holds all five token fields. A failure names the first missing field in the order the source reads them. On success the data keeps every old key except `token_info` with its old value. `token_info` becomes a record whose keys are exactly `t, uid, expire_time, access_token, refresh_token`, each taken from the payload. |
| TokenStore.LaterTokenWins | custom_components/tuya/__init__.py:352-363 | The token record is replaced as a whole: after two refreshes, the data equals a single refresh with the second payload. |
| TokenStore.OutcomeIndependentOfData | custom_components/tuya/__init__.py:352-363 | Whether a merge succeeds, and the token record it writes, depend only on the payload and not on the existing entry data. |
| EntrySetup.ClassifyRefreshError | custom_components/tuya/__init__.py:165-173 | A refresh error becomes a re-authentication failure, with the fixed message and the original message as its cause, if and only if its message contains `"sign invalid"`. Otherwise the original message propagates unchanged. |
| EntrySetup.MarkedMessageNeedsReauth | custom_components/tuya/__init__.py:170-172 | Any message containing `"sign invalid"`, whatever surrounds it, asks for re-authentication. |
| EntrySetup.ShortMessagePropagates | custom_components/tuya/__init__.py:170-173 | A message shorter than the marker always propagates unchanged. |
| EntrySetup.SetupEntry | custom_components/tuya/__init__.py:165-206 | Setup fails if and only if the refresh failed, and then with the classified error. When the target device is absent, setup does not fail. On success the device map is exactly the setup-time injection applied to the refreshed map, so other devices are untouched and an existing `work_state` function and status are kept. The target is ready for DP-19 reports. A registry entry survives if and only if it has no stale identifier, and every survivor is unchanged. |

## Left out

- Home Assistant's config-entry lifecycle is not modelled: `async_unload_entry`, `async_remove_entry`, platform forwarding, `async_get_or_create` registration of the known devices, and `dispatcher_send` signalling. These are host-framework calls whose behaviour is not visible in this file.
- `DeviceListener.add_device` and `remove_device` schedule `async_remove_device` through `hass.add_job`; only the registry removal it performs is modelled, as `RemoveDevice`. `update_device` only logs and publishes a dispatcher signal, and is not modelled.
- The vendor client is not modelled: constructing `Manager`, `update_device_cache` (a parameter of `SetupEntry` via `RefreshOutcome`), `refresh_mq`, `unload`, and the original `_on_device_report`, which is an uninterpreted function parameter of `PatchedOnDeviceReport`.
- Executor jobs, `hass.add_job` hand-offs, message-queue threads and logging are not modelled. They concern scheduling and output, not data.
- The monkey-patching mechanism is not modelled, including the re-wrapping of the method on every setup. Only the data transformation is.
- The `hasattr(device, 'status_range')` guards are not modelled. A device descriptor always has a status range in this model.
- PreprocessReport: `item.get('dpId') == 19` is modelled as the field being the integer 19. Python also accepts `19.0`, and floating point is not modelled.
- PreprocessReport: status items are values. If the same dictionary object appears twice in a report, Python's in-place mutation is shared between the two occurrences; the model does not represent this aliasing.
- The device's `status_range` is modelled as a map from data-point number to capability code. The vendor SDK's own type for that field is not part of this model.
- `DOMAIN` is `"tuya"` and `CONF_TOKEN_INFO` is `"token_info"`. The integration's `const.py` is not part of this model, and no proof depends on these values.
