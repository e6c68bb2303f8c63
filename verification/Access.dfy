/**
 Access decisions (core.py: `resource_access_source` through `effective_resources_for_device`) and what the
 registry operations do to them; the registry checks of backup.py.
 */
module Access {
  import opened Wrappers
  import opened Registry
  import opened RegistryIntegrity

  datatype Source = Inactive | DenyOverride | AllowOverride | ViaGroup(group: string) | NoAccess

  predicate IsExpired(d: Device, today: int) {
    d.expiry.On? && d.expiry.day < today
  }

  predicate IsActive(d: Device, today: int) {
    d.enabled && !IsExpired(d, today)
  }

  /** The first enabled group that has the device and permits the resource. */
  function GrantingGroup(groups: seq<Group>, id: string, resource: string): (r: Option<string>)
    ensures r.None? ==> forall g <- groups :: !(g.enabled && id in g.members && resource in g.allowedServices)
    ensures r.Some? ==> exists k :: 0 <= k < |groups| && groups[k].name == r.value && GroupPermits(groups[k], id, resource)
                                    && forall j :: 0 <= j < k ==> !GroupPermits(groups[j], id, resource)
  {
    if groups == [] then None
    else
      var g := groups[|groups| - 1];
      match GrantingGroup(groups[..|groups| - 1], id, resource)
      case Some(name) => Some(name)
      case None => if g.enabled && id in g.members && resource in g.allowedServices then Some(g.name) else None
  }

  function AccessSource(r: Resource, d: Device, groups: seq<Group>, today: int): Source {
    if !IsActive(d, today) then Inactive
    else if d.name in r.denied then DenyOverride
    else if d.name in r.allowed then AllowOverride
    else
      match GrantingGroup(groups, d.id, r.name)
      case Some(name) => ViaGroup(name)
      case None => NoAccess
  }

  predicate Allows(r: Resource, d: Device, groups: seq<Group>, today: int) {
    AccessSource(r, d, groups, today).AllowOverride? || AccessSource(r, d, groups, today).ViaGroup?
  }

  /** What the proxy lets through. */
  function AllowedHosts(r: Resource, devices: seq<Device>, groups: seq<Group>, today: int): set<nat> {
    set d | d in devices && Allows(r, d, groups, today) :: d.host
  }

  /** What the launcher shows. */
  function EffectiveResources(d: Device, resources: seq<Resource>, groups: seq<Group>, today: int): (shown: seq<Resource>)
    ensures forall r :: r in shown <==> r in resources && r.enabled && Allows(r, d, groups, today)
  {
    if resources == [] then []
    else
      var r := resources[|resources| - 1];
      EffectiveResources(d, resources[..|resources| - 1], groups, today)
      + if r.enabled && Allows(r, d, groups, today) then [r] else []
  }

  ghost predicate GroupPermits(g: Group, id: string, resource: string) {
    g.enabled && id in g.members && resource in g.allowedServices
  }

  ghost predicate Permits(groups: seq<Group>, id: string, resource: string) {
    exists g <- groups :: GroupPermits(g, id, resource)
  }

  /** Who may use a resource: devices that are enabled, not past their last day, not denied, and allowed by name or by
      an enabled group. */
  lemma AllowsMeans(r: Resource, d: Device, groups: seq<Group>, today: int)
    ensures Allows(r, d, groups, today)
            <==> d.enabled && (d.expiry.Never? || today <= d.expiry.day)
                 && d.name !in r.denied && (d.name in r.allowed || Permits(groups, d.id, r.name))
  {
    var found := GrantingGroup(groups, d.id, r.name);
    if found.None? {
      assert forall g <- groups :: !GroupPermits(g, d.id, r.name);
    }
  }

  /** The reason that is given: the state of the device comes first, then a denial, then an allowance, then the first
      group that permits. */
  lemma SourceMeans(r: Resource, d: Device, groups: seq<Group>, today: int, group: string)
    ensures var source, active := AccessSource(r, d, groups, today), d.enabled && (d.expiry.Never? || today <= d.expiry.day);
            && (source == Inactive <==> !d.enabled || (d.expiry.On? && d.expiry.day < today))
            && (source == DenyOverride <==> active && d.name in r.denied)
            && (source == AllowOverride <==> active && d.name in r.allowed && d.name !in r.denied)
            && (source == ViaGroup(group) <==>
                  && active && d.name !in r.denied && d.name !in r.allowed
                  && exists k :: 0 <= k < |groups| && groups[k].name == group && GroupPermits(groups[k], d.id, r.name)
                                 && forall j :: 0 <= j < k ==> !GroupPermits(groups[j], d.id, r.name))
            && (source == NoAccess <==> active && d.name !in r.denied && d.name !in r.allowed && !Permits(groups, d.id, r.name))
  {
    var found := GrantingGroup(groups, d.id, r.name);
    if found.None? {
      assert forall g <- groups :: !GroupPermits(g, d.id, r.name);
    }
  }

  /** From the day after its last one a device is admitted nowhere and shown nothing; until then its expiry decides
      nothing. */
  lemma ExpiredDeviceIsShutOut(rules: Rules, s: State, d: Device, r: Resource, today: int)
    requires GoodDevices(rules, s.devices) && d in s.devices && d.expiry.On?
    ensures d.expiry.day < today ==>
              d.host !in AllowedHosts(r, s.devices, s.groups, today) && EffectiveResources(d, s.resources, s.groups, today) == []
    ensures today <= d.expiry.day ==> AccessSource(r, d, s.groups, today) == AccessSource(r, d.(expiry := Never), s.groups, today)
  {
    hide Allows, GoodDevice, UniqueDevices;
    forall e <- s.devices | e.host == d.host ensures e == d {
      var i, j :| 0 <= i < |s.devices| && s.devices[i] == d && 0 <= j < |s.devices| && s.devices[j] == e;
    }
    forall q: Resource ensures d.expiry.day < today ==> !Allows(q, d, s.groups, today) {
      AllowsMeans(q, d, s.groups, today);
    }
    HasElement(EffectiveResources(d, s.resources, s.groups, today));
  }

  /** The launcher keeps the order of the registry: what it shows of the first resources comes first. */
  lemma {:induction false} ShownInOrder(d: Device, resources: seq<Resource>, groups: seq<Group>, today: int, k: nat)
    requires k <= |resources|
    ensures EffectiveResources(d, resources[..k], groups, today) <= EffectiveResources(d, resources, groups, today)
  {
    hide Allows;
    if k < |resources| {
      assert resources[..|resources| - 1][..k] == resources[..k];
      ShownInOrder(d, resources[..|resources| - 1], groups, today, k);
    } else {
      assert resources[..k] == resources;
    }
  }

  /** The gate admits an address exactly if the launcher of some device with that address shows the resource; in
      registries with integrity that is the device itself. */
  lemma GateMatchesLauncher(rules: Rules, s: State, d: Device, r: Resource, today: int)
    requires GoodDevices(rules, s.devices) && d in s.devices && r in s.resources && r.enabled
    ensures d.host in AllowedHosts(r, s.devices, s.groups, today)
            <==> r in EffectiveResources(d, s.resources, s.groups, today)
  {
    hide Allows, GoodDevice, UniqueDevices;
    forall e <- s.devices | e.host == d.host ensures e == d {
      var i, j :| 0 <= i < |s.devices| && s.devices[i] == d && 0 <= j < |s.devices| && s.devices[j] == e;
    }
  }

  // ---------- Renaming ----------

  lemma ReplacedMembership(names: set<string>, all: set<string>, was: string, now: string, name: string)
    requires names <= all && now !in all && name in all
    ensures (if name == was then now else name) in Replaced(names, was, now) <==> name in names
  {
  }

  /** Renaming a device changes no decision for any device and any resource. */
  lemma RenamePreservesAccess(rules: Rules, s: State, identifier: string, name: string, i: nat, k: nat, today: int)
    requires Integrity(rules, s) && RenameDevice(rules, s, identifier, name).Ok?
    requires i < |s.devices| && k < |s.resources|
    ensures var t := RenameDevice(rules, s, identifier, name).value;
            && |t.devices| == |s.devices| && |t.resources| == |s.resources| && t.devices[i].id == s.devices[i].id
            && AccessSource(t.resources[k], t.devices[i], t.groups, today)
               == AccessSource(s.resources[k], s.devices[i], s.groups, today)
  {
    hide GoodGroups, GrantingGroup, Replaced, DistinctHosts, RenamedIn, UniqueResources, DeviceNames, DeviceIds, ResourceNames;
    var t := RenameDevice(rules, s, identifier, name).value;
    var j := FindDevice(s.devices, identifier).value;
    var was := s.devices[j].name;
    if was != name {
      assert GoodResource(rules, s.resources[k], DeviceNames(s.devices)) by {
        assert s.resources[k] in s.resources;
      }
      NameOf(s.devices, i);
      NameOf(s.devices, j);
      assert t.devices[i].name == if s.devices[i].name == was then name else s.devices[i].name;
      ReplacedMembership(s.resources[k].allowed, DeviceNames(s.devices), was, name, s.devices[i].name);
      ReplacedMembership(s.resources[k].denied, DeviceNames(s.devices), was, name, s.devices[i].name);
    }
  }

  /** So the gate of every resource admits the same addresses as before. */
  lemma RenameKeepsGate(rules: Rules, s: State, identifier: string, name: string, k: nat, today: int)
    requires Integrity(rules, s) && RenameDevice(rules, s, identifier, name).Ok? && k < |s.resources|
    ensures var t := RenameDevice(rules, s, identifier, name).value;
            && |t.resources| == |s.resources| && |t.devices| == |s.devices|
            && AllowedHosts(t.resources[k], t.devices, t.groups, today)
               == AllowedHosts(s.resources[k], s.devices, s.groups, today)
  {
    hide Integrity, AccessSource, AllowedHosts;
    var t := RenameDevice(rules, s, identifier, name).value;
    forall i | 0 <= i < |s.devices|
      ensures |t.resources| == |s.resources|
              && Allows(t.resources[k], t.devices[i], t.groups, today) == Allows(s.resources[k], s.devices[i], s.groups, today)
    {
      RenamePreservesAccess(rules, s, identifier, name, i, k, today);
    }
    SameHosts(s.resources[k], t.resources[k], s.devices, t.devices, s.groups, t.groups, today);
  }

  lemma SameHosts(r: Resource, q: Resource, before: seq<Device>, after: seq<Device>, groups: seq<Group>, others: seq<Group>, today: int)
    requires |before| == |after|
    requires forall i :: 0 <= i < |before| ==>
               before[i].host == after[i].host && Allows(r, before[i], groups, today) == Allows(q, after[i], others, today)
    ensures AllowedHosts(r, before, groups, today) == AllowedHosts(q, after, others, today)
  {
  }

  // ---------- Registering ----------

  /** A new resource is open to the active devices it is registered with and to nobody else, whatever groups
      permitted under its name before: no remains of an earlier resource give access. */
  lemma NewResourceIsClosed(rules: Rules, s: State, r: Resource, i: nat, today: int)
    requires Integrity(rules, s) && RegisterResource(rules, s, r).Ok? && i < |s.devices|
    ensures var t := RegisterResource(rules, s, r).value;
            && |t.resources| == |s.resources| + 1
            && AccessSource(t.resources[|s.resources|], s.devices[i], t.groups, today)
               == if !IsActive(s.devices[i], today) then Inactive
                  else if s.devices[i].name in r.allowed then AllowOverride else NoAccess
  {
    hide GoodDevices, GoodResources, UniqueGroups;
    var t := RegisterResource(rules, s, r).value;
    forall g <- s.groups ensures r.name !in g.allowedServices {
      assert GoodGroup(rules, g, DeviceIds(s.devices), ResourceNames(s.resources));
    }
  }

  /** Removing a resource and registering its name again with nobody allowed closes it for every device. */
  lemma RemoveThenRegister(rules: Rules, s: State, r: Resource, i: nat, today: int)
    requires Integrity(rules, s) && RemoveResource(s, r.name).Ok? && r.allowed == {} && i < |s.devices|
    requires RegisterResource(rules, RemoveResource(s, r.name).value, r).Ok?
    ensures var t := RegisterResource(rules, RemoveResource(s, r.name).value, r).value;
            t.resources != [] && !Allows(t.resources[|t.resources| - 1], s.devices[i], t.groups, today)
  {
    hide Integrity, RegisterResource, AccessSource, WithoutNamed, WithoutService;
    RemoveKeeps(rules, s, r.name);
    NewResourceIsClosed(rules, RemoveResource(s, r.name).value, r, i, today);
  }

  // ---------- Overrides ----------

  /** An override settles one pair of a device and a resource and leaves every other decision as it was. */
  lemma OverrideSettlesOnePair(rules: Rules, s: State, name: string, identifier: string, decision: Decision, i: nat, k: nat, today: int)
    requires Integrity(rules, s) && SetAccess(s, name, identifier, decision).Ok? && i < |s.devices| && k < |s.resources|
    ensures var t := SetAccess(s, name, identifier, decision).value;
            var own := FindDevice(s.devices, identifier) == Some(i) && FindResource(s.resources, name) == Some(k);
            && |t.resources| == |s.resources|
            && AccessSource(t.resources[k], s.devices[i], t.groups, today)
               == if !own then AccessSource(s.resources[k], s.devices[i], s.groups, today)
                  else if !IsActive(s.devices[i], today) then Inactive
                  else match decision
                    case Deny => DenyOverride
                    case Allow => AllowOverride
                    case Inherit => AccessSource(s.resources[k].(allowed := {}, denied := {}), s.devices[i], s.groups, today)
  {
    hide GoodGroups, GoodResources, DistinctHosts, GrantingGroup;
    var j := FindDevice(s.devices, identifier).value;
    assert i != j ==> s.devices[i].name != s.devices[j].name;
  }

  lemma HasElement(resources: seq<Resource>)
    ensures resources == [] || exists r :: r in resources
  {
    if resources != [] {
      assert resources[0] in resources;
    }
  }

  /** A disabled device gets nothing, by the gate or by the launcher. */
  lemma RevokedDeviceIsShutOut(rules: Rules, s: State, identifier: string, r: Resource, today: int)
    requires Integrity(rules, s) && SetDeviceEnabled(s, identifier, false).Ok? && r in s.resources
    ensures var t := SetDeviceEnabled(s, identifier, false).value;
            var d := t.devices[FindDevice(s.devices, identifier).value];
            && d.host !in AllowedHosts(r, t.devices, t.groups, today)
            && EffectiveResources(d, t.resources, t.groups, today) == []
  {
    hide GoodGroups, GoodResources, UniqueDevices, GoodDevice;
    var i := FindDevice(s.devices, identifier).value;
    var t := SetDeviceEnabled(s, identifier, false).value;
    forall e <- t.devices | e.host == t.devices[i].host ensures e == t.devices[i] {
      var j :| 0 <= j < |t.devices| && t.devices[j] == e;
    }
    var shown := EffectiveResources(t.devices[i], t.resources, t.groups, today);
    HasElement(shown);
  }

  /** Configuring a resource changes no decision. */
  lemma UpdateKeepsAccess(rules: Rules, s: State, name: string, port: Option<int>, unit: Option<string>, rest: Option<string>,
                          selfHeal: Option<bool>, enabled: Option<bool>, d: Device, k: nat, today: int)
    requires UpdateResource(rules, s, name, port, unit, rest, selfHeal, enabled).Ok? && k < |s.resources|
    ensures var t := UpdateResource(rules, s, name, port, unit, rest, selfHeal, enabled).value;
            && |t.resources| == |s.resources| && t.resources[k].name == s.resources[k].name
            && AccessSource(t.resources[k], d, t.groups, today) == AccessSource(s.resources[k], d, s.groups, today)
  {
  }

  // ---------- Groups ----------

  lemma ReplacedPermits(groups: seq<Group>, i: nat, g: Group, id: string, resource: string)
    requires i < |groups| && UniqueGroups(groups)
    ensures Permits(groups[i := g], id, resource)
            <==> GroupPermits(g, id, resource) || exists h <- groups :: h.name != groups[i].name && GroupPermits(h, id, resource)
  {
    var after := groups[i := g];
    assert after[i] == g && forall j | 0 <= j < |groups| :: after[j] == if j == i then g else groups[j];
    if h :| h in groups && h.name != groups[i].name && GroupPermits(h, id, resource) {
      var j :| 0 <= j < |groups| && groups[j] == h;
      assert after[j] in after;
    }
    if h :| h in after && GroupPermits(h, id, resource) {
      var j :| 0 <= j < |after| && after[j] == h;
      assert j != i ==> groups[j].name != groups[i].name;
    }
    assert g in after;
  }

  /** Assigning a device to a group, or taking it out, decides about that device and that group alone. */
  lemma AssignmentSettles(rules: Rules, s: State, name: string, identifier: string, member: bool, d: nat, i: nat, id: string, resource: string)
    requires Integrity(rules, s) && FindDevice(s.devices, identifier) == Some(d) && FindGroup(s.groups, name) == Some(i)
    ensures var t := SetGroupDevice(s, name, identifier, member).value;
            var other := exists h <- s.groups :: h.name != name && GroupPermits(h, id, resource);
            Permits(t.groups, id, resource)
            <==> if id == s.devices[d].id then other || (member && s.groups[i].enabled && resource in s.groups[i].allowedServices)
                 else Permits(s.groups, id, resource)
  {
    hide GoodDevices, GoodResources, GoodGroup;
    var g := SetGroupDevice(s, name, identifier, member).value.groups[i];
    ReplacedPermits(s.groups, i, g, id, resource);
    ReplacedPermits(s.groups, i, s.groups[i], id, resource);
    assert s.groups[i := s.groups[i]] == s.groups;
  }

  /** Granting a resource to a group, or revoking it, decides about that resource and that group alone. */
  lemma GrantSettles(rules: Rules, s: State, name: string, resource: string, granted: bool, i: nat, id: string, other: string)
    requires Integrity(rules, s) && resource in ResourceNames(s.resources) && FindGroup(s.groups, name) == Some(i)
    ensures var t := SetGroupResource(s, name, resource, granted).value;
            var elsewhere := exists h <- s.groups :: h.name != name && GroupPermits(h, id, other);
            Permits(t.groups, id, other)
            <==> if other == resource then elsewhere || (granted && s.groups[i].enabled && id in s.groups[i].members)
                 else Permits(s.groups, id, other)
  {
    hide GoodDevices, GoodResources, GoodGroup;
    var g := SetGroupResource(s, name, resource, granted).value.groups[i];
    ReplacedPermits(s.groups, i, g, id, other);
    ReplacedPermits(s.groups, i, s.groups[i], id, other);
    assert s.groups[i := s.groups[i]] == s.groups;
  }

  /** Removing a group takes away exactly what only that group permitted; disabling it does the same. */
  lemma RemovedGroupPermitsNothing(rules: Rules, s: State, name: string, i: nat, id: string, resource: string)
    requires Integrity(rules, s) && FindGroup(s.groups, name) == Some(i)
    ensures var other := exists h <- s.groups :: h.name != name && GroupPermits(h, id, resource);
            && (Permits(RemoveGroup(s, name).value.groups, id, resource) <==> other)
            && (Permits(SetGroupEnabled(s, name, false).value.groups, id, resource) <==> other)
  {
    hide GoodDevices, GoodResources, GoodGroup;
    ReplacedPermits(s.groups, i, s.groups[i].(enabled := false), id, resource);
  }

  // ---------- Backup checks ----------

  /** The registry checks of `validate_snapshot`; `services` is the mirror of the resources. */
  ghost predicate PassesSnapshotCheck(rules: Rules, s: State, services: seq<Resource>) {
    && (forall d <- s.devices :: d.id != "" && d.name != "") && UniqueDevices(s.devices)
    && (forall r <- s.resources :: rules.name(r.name) && 1 <= r.bridgePort <= 65535 && rules.config(r.unit, r.rest)
                                   && (r.selfHeal ==> r.unit != ""))
    && UniqueResources(s.resources) && services == s.resources
    && UniqueGroups(s.groups)
    && forall g <- s.groups :: rules.name(g.name) && g.members <= DeviceIds(s.devices)
                               && g.allowedServices <= ResourceNames(s.resources)
  }

  /** Whatever operations were completed, the registries can be backed up. */
  lemma ReachablePassesSnapshotCheck(rules: Rules, ops: seq<Operation>)
    requires NamesNonEmpty(rules)
    ensures PassesSnapshotCheck(rules, After(rules, ops), After(rules, ops).resources)
  {
    hide After, UniqueDevices, UniqueResources, UniqueGroups, DeviceIds, DeviceNames, ResourceNames;
    RunKeepsIntegrity(rules, ops);
    var s := After(rules, ops);
    assert forall d <- s.devices :: GoodDevice(rules, d);
    assert forall r <- s.resources :: GoodResource(rules, r, DeviceNames(s.devices));
    assert forall g <- s.groups :: GoodGroup(rules, g, DeviceIds(s.devices), ResourceNames(s.resources));
  }
}
