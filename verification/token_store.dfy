/** `TokenListener.update_token` of custom_components/tuya/__init__.py: the
    config-entry data the listener hands to the host when the vendor client
    refreshes its token. */
module TokenStore {
  import opened Basics

  /** The config-entry key holding the token record. */
  const CONF_TOKEN_INFO: string := "token_info"

  /** The token fields copied from the refresh payload, in the order the
      source reads them. */
  const TOKEN_FIELDS: seq<string> := ["t", "uid", "expire_time", "access_token", "refresh_token"]

  /** A config-entry value: a scalar or a nested record such as the token info. */
  datatype EntryValue = Scalar(v: Json) | Record(fields: map<string, Json>)

  type EntryData = map<string, EntryValue>

  /** The first token field, in reading order, that the payload lacks; the
      source fails with a missing-key error on it. */
  function FirstMissing(payload: map<string, Json>, fields: seq<string>): (r: Option<string>)
    ensures r.None? <==> forall i :: 0 <= i < |fields| ==> fields[i] in payload
    ensures r.Some? ==> exists i :: 0 <= i < |fields| && fields[i] == r.value && r.value !in payload
                                    && forall j :: 0 <= j < i ==> fields[j] in payload
  {
    if fields == [] then None
    else if fields[0] !in payload then Some(fields[0])
    else
      var rest := FirstMissing(payload, fields[1..]);
      assert forall i :: 1 <= i < |fields| ==> fields[i] == fields[1..][i - 1];
      rest
  }

  /** The merged data: the old entry data with the token record replaced by a
      fresh record of exactly the five token fields. */
  function UpdateToken(data: EntryData, payload: map<string, Json>): (r: Result<EntryData, string>)
    ensures r.Success? <==> forall f :: f in TOKEN_FIELDS ==> f in payload
    ensures r.Failure? ==> r.error in TOKEN_FIELDS && r.error !in payload
    ensures r.Failure? ==> forall i :: 0 <= i < |TOKEN_FIELDS| && TOKEN_FIELDS[i] == r.error ==>
                             forall j :: 0 <= j < i ==> TOKEN_FIELDS[j] in payload
    ensures r.Success? ==> r.value.Keys == data.Keys + {CONF_TOKEN_INFO}
    ensures r.Success? ==> forall k :: k in data && k != CONF_TOKEN_INFO ==> r.value[k] == data[k]
    ensures r.Success? ==>
              && r.value[CONF_TOKEN_INFO].Record?
              && r.value[CONF_TOKEN_INFO].fields.Keys == set f | f in TOKEN_FIELDS
              && forall f :: f in TOKEN_FIELDS ==>
                   f in payload && f in r.value[CONF_TOKEN_INFO].fields
                   && r.value[CONF_TOKEN_INFO].fields[f] == payload[f]
  {
    match FirstMissing(payload, TOKEN_FIELDS)
    case Some(field) => Failure(field)
    case None =>
      assert forall i :: 0 <= i < |TOKEN_FIELDS| ==> TOKEN_FIELDS[i] in payload;
      assert TOKEN_FIELDS[1] in payload && TOKEN_FIELDS[2] in payload;
      assert TOKEN_FIELDS[3] in payload && TOKEN_FIELDS[4] in payload;
      var token := map[
        "t" := payload["t"],
        "uid" := payload["uid"],
        "expire_time" := payload["expire_time"],
        "access_token" := payload["access_token"],
        "refresh_token" := payload["refresh_token"]];
      Success(data[CONF_TOKEN_INFO := Record(token)])
  }

  /** The token record is replaced as a whole: after two refreshes only the
      second payload is visible, whatever the first one held. */
  lemma LaterTokenWins(data: EntryData, first: map<string, Json>, second: map<string, Json>)
    requires UpdateToken(data, first).Success?
    ensures UpdateToken(UpdateToken(data, first).value, second) == UpdateToken(data, second)
  {
    var once := UpdateToken(data, first).value;
    match UpdateToken(data, second)
    case Failure(_) =>
    case Success(direct) =>
      var twice := UpdateToken(once, second).value;
      assert twice.Keys == direct.Keys;
      assert twice == direct;
  }

  /** Whether a refresh succeeds depends only on the payload, never on the
      entry data it is merged into. */
  lemma OutcomeIndependentOfData(a: EntryData, b: EntryData, payload: map<string, Json>)
    ensures UpdateToken(a, payload).Success? == UpdateToken(b, payload).Success?
    ensures UpdateToken(a, payload).Success? ==>
              UpdateToken(a, payload).value[CONF_TOKEN_INFO] == UpdateToken(b, payload).value[CONF_TOKEN_INFO]
  {
  }
}
