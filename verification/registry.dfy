/** The host's device registry as this integration sees it: every entry id
    maps to the set of (domain, device id) identifiers it carries.
    Models `cleanup_device_registry` and `DeviceListener.async_remove_device`
    of custom_components/tuya/__init__.py. */
module DeviceRegistry {
  import opened Basics

  /** The integration's domain: the first half of every identifier it registers. */
  const DOMAIN: string := "tuya"

  type EntryId = string
  type Identifier = (string, string)
  type Registry = map<EntryId, set<Identifier>>

  /** The host keeps every identifier on at most one registry entry; lookup by
      identifier relies on it. */
  ghost predicate UniqueIdentifiers(reg: Registry)
  {
    forall k1, k2, ident :: k1 in reg && k2 in reg && ident in reg[k1] && ident in reg[k2] ==> k1 == k2
  }

  /** Every identifier of this domain names a device the vendor client knows. */
  ghost predicate Consistent(reg: Registry, known: set<string>)
  {
    forall k, ident :: k in reg && ident in reg[k] && ident.0 == DOMAIN ==> ident.1 in known
  }

  /** An identifier that belongs to this integration but names an unknown device. */
  predicate StaleIdentifier(ident: Identifier, known: set<string>)
  {
    ident.0 == DOMAIN && ident.1 !in known
  }

  /** An entry is orphaned when at least one of its identifiers is stale. */
  predicate Orphaned(ids: set<Identifier>, known: set<string>)
  {
    exists ident | ident in ids :: StaleIdentifier(ident, known)
  }

  /** Reference definition of reconciliation: keep exactly the entries that
      are not orphaned, untouched. */
  function Reconcile(reg: Registry, known: set<string>): (r: Registry)
    ensures Consistent(r, known)
    ensures r.Keys <= reg.Keys
    ensures forall k :: k in reg && !Orphaned(reg[k], known) ==> k in r && r[k] == reg[k]
    ensures forall k :: k in r ==> r[k] == reg[k]
  {
    map k | k in reg && !Orphaned(reg[k], known) :: reg[k]
  }

  /** The inner loop over one entry's identifiers, stopping at the first stale one. */
  method FindStaleIdentifier(ids: set<Identifier>, known: set<string>) returns (found: bool)
    ensures found <==> Orphaned(ids, known)
  {
    found := false;
    var rest := ids;
    while rest != {} && !found
      invariant rest <= ids
      invariant found ==> Orphaned(ids, known)
      invariant !found ==> forall ident :: ident in ids && ident !in rest ==> !StaleIdentifier(ident, known)
      decreases rest
    {
      var ident :| ident in rest;
      if StaleIdentifier(ident, known) {
        found := true;
      }
      rest := rest - {ident};
    }
  }

  /** The outer loop: walk a snapshot of the registry's entries and remove
      from the live registry every entry with a stale identifier. */
  method CleanupDeviceRegistry(reg: Registry, known: set<string>) returns (r: Registry)
    ensures forall k :: k in r <==> k in reg && !Orphaned(reg[k], known)
    ensures forall k :: k in r ==> r[k] == reg[k]
    ensures r == Reconcile(reg, known)
  {
    r := reg;
    var pending := reg.Keys;
    while pending != {}
      invariant pending <= reg.Keys
      invariant r.Keys <= reg.Keys
      invariant forall k :: k in r ==> r[k] == reg[k]
      invariant forall k :: k in pending ==> k in r
      invariant forall k :: k in reg && k !in pending ==> (k in r <==> !Orphaned(reg[k], known))
      decreases pending
    {
      var devId :| devId in pending;
      var stale := FindStaleIdentifier(reg[devId], known);
      if stale {
        r := r - {devId};
      }
      pending := pending - {devId};
    }
  }

  /** The host's lookup of the single entry that carries `ident`. */
  function GetDevice(reg: Registry, ident: Identifier): (r: Option<EntryId>)
    requires UniqueIdentifiers(reg)
    ensures r.Some? <==> exists k :: k in reg && ident in reg[k]
    ensures r.Some? ==> r.value in reg && ident in reg[r.value]
  {
    if exists k | k in reg :: ident in reg[k] then
      var k :| k in reg && ident in reg[k];
      Some(k)
    else
      None
  }

  /** `async_remove_device`: drop the entry identified by (DOMAIN, deviceId), if any. */
  function RemoveDevice(reg: Registry, deviceId: string): (r: Registry)
    requires UniqueIdentifiers(reg)
    ensures forall k :: k in reg ==> (k in r <==> (DOMAIN, deviceId) !in reg[k])
    ensures forall k :: k in r ==> k in reg && r[k] == reg[k]
    ensures forall k1, k2 :: k1 in reg && k1 !in r && k2 in reg && k2 !in r ==> k1 == k2
  {
    match GetDevice(reg, (DOMAIN, deviceId))
    case None => reg
    case Some(k) => reg - {k}
  }

  /** A second reconciliation against the same device set removes nothing. */
  lemma ReconcileIdempotent(reg: Registry, known: set<string>)
    ensures Reconcile(Reconcile(reg, known), known) == Reconcile(reg, known)
  {
  }

  /** Reconciliation changes the registry exactly when the invariant is broken. */
  lemma ReconcileFixedPoint(reg: Registry, known: set<string>)
    ensures Reconcile(reg, known) == reg <==> Consistent(reg, known)
  {
  }

  /** Reconciliation never merges identifiers, so it keeps the host's uniqueness invariant. */
  lemma ReconcilePreservesUnique(reg: Registry, known: set<string>)
    requires UniqueIdentifiers(reg)
    ensures UniqueIdentifiers(Reconcile(reg, known))
  {
  }

  /** On a consistent registry, a removal event for `deviceId` has the same
      effect as reconciling against the known set without that device. */
  lemma RemoveMatchesReconcile(reg: Registry, known: set<string>, deviceId: string)
    requires UniqueIdentifiers(reg)
    requires Consistent(reg, known)
    ensures RemoveDevice(reg, deviceId) == Reconcile(reg, known - {deviceId})
  {
  }

  /** Removing the same device twice is the same as removing it once. */
  lemma RemoveDeviceIdempotent(reg: Registry, deviceId: string)
    requires UniqueIdentifiers(reg)
    ensures UniqueIdentifiers(RemoveDevice(reg, deviceId))
    ensures RemoveDevice(RemoveDevice(reg, deviceId), deviceId) == RemoveDevice(reg, deviceId)
  {
  }
}
