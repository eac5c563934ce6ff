/** The data path of `async_setup_entry` in custom_components/tuya/__init__.py:
    classify a failed device-cache refresh, inject the DP-19 capability into
    the refreshed device map, and reconcile the device registry against it. */
module EntrySetup {
  import opened Basics
  import DeviceRegistry
  import CapabilityPatch

  /** The marker the vendor client puts in the message of a rejected signature. */
  const SIGN_INVALID: string := "sign invalid"
  /** The message of the re-authentication failure raised in its place. */
  const AUTH_FAILED_MESSAGE: string := "Authentication failed. Please re-authenticate"

  /** How setup fails: a re-authentication request (chained to the original
      message), or the original error passed on unchanged. */
  datatype SetupError = ReauthRequired(message: string, cause: string) | Raised(message: string)

  /** The result of asking the vendor client to refresh its device cache. */
  datatype RefreshOutcome = Refreshed(deviceMap: CapabilityPatch.DeviceMap) | RefreshFailed(message: string)

  /** Python's `needle in haystack` on strings. */
  predicate Contains(haystack: string, needle: string)
  {
    exists i | 0 <= i <= |haystack| - |needle| :: needle <= haystack[i..]
  }

  /** The setup error handler: a message mentioning an invalid signature asks
      the user to re-authenticate; anything else propagates as it was. */
  function ClassifyRefreshError(message: string): (r: SetupError)
    ensures r.ReauthRequired? <==> Contains(message, SIGN_INVALID)
    ensures r.ReauthRequired? ==> r.message == AUTH_FAILED_MESSAGE && r.cause == message
    ensures r.Raised? ==> r.message == message
  {
    if Contains(message, SIGN_INVALID) then ReauthRequired(AUTH_FAILED_MESSAGE, message)
    else Raised(message)
  }

  /** Whatever surrounds it, a message carrying the marker asks for re-authentication. */
  lemma MarkedMessageNeedsReauth(before: string, after: string)
    ensures ClassifyRefreshError(before + SIGN_INVALID + after).ReauthRequired?
  {
    var message := before + SIGN_INVALID + after;
    assert SIGN_INVALID <= message[|before|..];
  }

  /** A message shorter than the marker can never ask for re-authentication. */
  lemma ShortMessagePropagates(message: string)
    requires |message| < |SIGN_INVALID|
    ensures ClassifyRefreshError(message) == Raised(message)
  {
  }

  /** Setup up to the registry cleanup: a failed refresh ends setup with the
      classified error; otherwise the target device is prepared by the
      setup-time injection (every other device untouched) and exactly the
      orphaned registry entries are removed, the rest kept unchanged. */
  function SetupEntry(refresh: RefreshOutcome, registry: DeviceRegistry.Registry)
    : (r: Result<(CapabilityPatch.DeviceMap, DeviceRegistry.Registry), SetupError>)
    ensures r.Failure? <==> refresh.RefreshFailed?
    ensures r.Failure? ==> r.error == ClassifyRefreshError(refresh.message)
    ensures r.Success? ==>
              && r.value.0.Keys == refresh.deviceMap.Keys
              && CapabilityPatch.WorkStateReady(r.value.0)
              && DeviceRegistry.Consistent(r.value.1, refresh.deviceMap.Keys)
              && r.value.0 == CapabilityPatch.InjectWorkState(refresh.deviceMap)
              && (forall k :: k in r.value.1 <==>
                    k in registry && !DeviceRegistry.Orphaned(registry[k], refresh.deviceMap.Keys))
              && (forall k :: k in r.value.1 ==> r.value.1[k] == registry[k])
  {
    match refresh
    case RefreshFailed(message) => Failure(ClassifyRefreshError(message))
    case Refreshed(deviceMap) =>
      var prepared := CapabilityPatch.InjectWorkState(deviceMap);
      CapabilityPatch.InjectEstablishesReady(deviceMap);
      Success((prepared, DeviceRegistry.Reconcile(registry, prepared.Keys)))
  }
}
