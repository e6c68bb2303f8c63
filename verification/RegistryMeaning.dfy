/**
 What each operation on the registries (core.py) accepts, and what it leaves, entry by entry and field by field.
 */
module RegistryMeaning {
  import opened Wrappers
  import opened Registry

  /** The first device with this id or name, and the first entries of a name. */
  ghost predicate IsDevice(devices: seq<Device>, i: nat, identifier: string) {
    && i < |devices| && (devices[i].id == identifier || devices[i].name == identifier)
    && forall j :: 0 <= j < i ==> devices[j].id != identifier && devices[j].name != identifier
  }

  ghost predicate IsResource(resources: seq<Resource>, k: nat, name: string) {
    k < |resources| && resources[k].name == name && forall j :: 0 <= j < k ==> resources[j].name != name
  }

  ghost predicate IsGroup(groups: seq<Group>, k: nat, name: string) {
    k < |groups| && groups[k].name == name && forall j :: 0 <= j < k ==> groups[j].name != name
  }

  /** Nothing but one entry may have changed. */
  ghost predicate OnlyDevice(s: State, t: State, i: nat) {
    && t.resources == s.resources && t.groups == s.groups && |t.devices| == |s.devices|
    && forall j :: 0 <= j < |s.devices| && j != i ==> t.devices[j] == s.devices[j]
  }

  ghost predicate OnlyResource(s: State, t: State, k: nat) {
    && t.devices == s.devices && t.groups == s.groups && |t.resources| == |s.resources|
    && forall j :: 0 <= j < |s.resources| && j != k ==> t.resources[j] == s.resources[j]
  }

  ghost predicate OnlyGroup(s: State, t: State, k: nat) {
    && t.devices == s.devices && t.resources == s.resources && |t.groups| == |s.groups|
    && forall j :: 0 <= j < |s.groups| && j != k ==> t.groups[j] == s.groups[j]
  }

  lemma FindsDevice(devices: seq<Device>, identifier: string)
    ensures forall i: nat :: IsDevice(devices, i, identifier) <==> FindDevice(devices, identifier) == Some(i)
    ensures FindDevice(devices, identifier).Some? ==> IsDevice(devices, FindDevice(devices, identifier).value, identifier)
  {
    if i: nat :| IsDevice(devices, i, identifier) {
      assert devices[i] in devices;
    }
  }

  lemma FindsResource(resources: seq<Resource>, name: string)
    ensures forall k: nat :: IsResource(resources, k, name) <==> FindResource(resources, name) == Some(k)
    ensures FindResource(resources, name).Some? ==> IsResource(resources, FindResource(resources, name).value, name)
  {
    if k: nat :| IsResource(resources, k, name) {
      assert resources[k] in resources;
    }
  }

  lemma FindsGroup(groups: seq<Group>, name: string)
    ensures forall k: nat :: IsGroup(groups, k, name) <==> FindGroup(groups, name) == Some(k)
    ensures FindGroup(groups, name).Some? ==> IsGroup(groups, FindGroup(groups, name).value, name)
  {
    if k: nat :| IsGroup(groups, k, name) {
      assert groups[k] in groups;
    }
  }

  // ---------- Devices ----------

  ghost predicate HasHost(devices: seq<Device>, host: nat) {
    exists x <- devices :: x.host == host
  }

  /** A device is added exactly under a valid and unused name, with valid metadata, a new id, and an address free; it
      comes last, as it was given, on the least free address. */
  lemma AddMeans(rules: Rules, s: State, d: Device)
    ensures var r := AddDevice(rules, s, d);
            var named, taken := rules.name(d.name), exists x <- s.devices :: x.name == d.name;
            var free := exists h: nat :: 2 <= h <= 254 && !HasHost(s.devices, h);
            var known := exists x <- s.devices :: x.id == d.id;
            && (r.Ok? <==> named && !taken && rules.kind(d.info) && rules.info(d.expiry, d.info) && free && !known)
            && (r == Err(InvalidName) <==> !named) && (r == Err(NameTaken) <==> named && taken)
            && (r == Err(NoFreeIp) <==> named && !taken && rules.kind(d.info) && !free)
            && (r == Err(DuplicateId) <==> named && !taken && rules.kind(d.info) && free && rules.info(d.expiry, d.info) && known)
            && (r == Err(InvalidInfo) <==> named && !taken && (!rules.kind(d.info) || (free && !rules.info(d.expiry, d.info))))
    ensures AddDevice(rules, s, d).Ok? ==>
              var t := AddDevice(rules, s, d).value;
              && t.resources == s.resources && t.groups == s.groups
              && |t.devices| == |s.devices| + 1 && t.devices[..|s.devices|] == s.devices
              && var x := t.devices[|s.devices|];
                 && x.id == d.id && x.name == d.name && x.publicKey == d.publicKey && x.enabled == d.enabled
                 && x.expiry == d.expiry && x.info == d.info && 2 <= x.host <= 254 && !HasHost(s.devices, x.host)
                 && forall h :: 2 <= h < x.host ==> HasHost(s.devices, h)
  {
    hide NextHost;
    var used := UsedHosts(s.devices);
    assert forall h: nat :: h in used <==> HasHost(s.devices, h);
    assert d.name in DeviceNames(s.devices) <==> exists x <- s.devices :: x.name == d.name;
    assert d.id in DeviceIds(s.devices) <==> exists x <- s.devices :: x.id == d.id;
    hide UsedHosts, DeviceNames, DeviceIds, HasHost;
    if NextHost(used, 2).Some? {
      assert !HasHost(s.devices, NextHost(used, 2).value);
    }
  }

  /** Switching a device sets whether it is enabled, on the first one with that id or name. */
  lemma EnabledMeans(s: State, identifier: string, enabled: bool)
    ensures var r := SetDeviceEnabled(s, identifier, enabled);
            && (r.Err? <==> forall d <- s.devices :: d.id != identifier && d.name != identifier) && (r.Err? ==> r.error == UnknownDevice)
            && (r.Ok? ==> exists i: nat :: IsDevice(s.devices, i, identifier) && OnlyDevice(s, r.value, i)
                                           && r.value.devices[i].enabled == enabled
                                           && r.value.devices[i].(enabled := s.devices[i].enabled) == s.devices[i])
  {
    FindsDevice(s.devices, identifier);
    hide FindDevice, IsDevice;
    if FindDevice(s.devices, identifier).Some? {
      var i := FindDevice(s.devices, identifier).value;
      assert OnlyDevice(s, SetDeviceEnabled(s, identifier, enabled).value, i);
    }
  }

  /** Updating a device takes valid metadata and sets those, with the expiry. */
  lemma UpdateMeans(rules: Rules, s: State, identifier: string, expiry: Expiry, info: string)
    ensures var r := UpdateDevice(rules, s, identifier, expiry, info);
            var known := exists d <- s.devices :: d.id == identifier || d.name == identifier;
            && (r.Ok? <==> known && rules.kind(info) && rules.info(expiry, info))
            && (r == Err(UnknownDevice) <==> !known)
            && (r == Err(InvalidInfo) <==> known && !(rules.kind(info) && rules.info(expiry, info)))
            && (r.Ok? ==> exists i: nat :: IsDevice(s.devices, i, identifier) && OnlyDevice(s, r.value, i)
                                           && r.value.devices[i].expiry == expiry && r.value.devices[i].info == info
                                           && r.value.devices[i].(expiry := s.devices[i].expiry, info := s.devices[i].info) == s.devices[i])
  {
    FindsDevice(s.devices, identifier);
    hide FindDevice, IsDevice;
    if FindDevice(s.devices, identifier).Some? {
      var i := FindDevice(s.devices, identifier).value;
      assert s.devices[i] in s.devices;
      assert UpdateDevice(rules, s, identifier, expiry, info).Ok? ==> OnlyDevice(s, UpdateDevice(rules, s, identifier, expiry, info).value, i);
    }
  }

  /** In a list of names one took the place of another. */
  ghost predicate Swapped(before: set<string>, after: set<string>, was: string, now: string) {
    forall n :: n in after <==> (n in before && n != was) || (n == now && was in before)
  }

  /** Renaming takes a valid name that no device has, except perhaps that device; it changes the name of the device and
      its place in the lists of every resource. */
  lemma RenameMeans(rules: Rules, s: State, identifier: string, name: string)
    ensures var r := RenameDevice(rules, s, identifier, name);
            var known := exists d <- s.devices :: d.id == identifier || d.name == identifier;
            && (r == Err(InvalidName) <==> !rules.name(name)) && (r == Err(UnknownDevice) <==> rules.name(name) && !known)
            && (r.Err? ==> r.error in {InvalidName, UnknownDevice, NameTaken})
    ensures forall i: nat :: IsDevice(s.devices, i, identifier) && rules.name(name) ==>
              var r := RenameDevice(rules, s, identifier, name);
              var was := s.devices[i].name;
              && (r.Ok? <==> was == name || forall d <- s.devices :: d.name != name)
              && (was == name ==> r == Ok(s))
              && (r.Ok? ==>
                    var t := r.value;
                    && t.groups == s.groups && |t.devices| == |s.devices| && |t.resources| == |s.resources|
                    && (forall j :: 0 <= j < |s.devices| && j != i ==> t.devices[j] == s.devices[j])
                    && t.devices[i].name == name && t.devices[i].(name := was) == s.devices[i]
                    && (was != name ==> forall k :: 0 <= k < |s.resources| ==>
                          && Swapped(s.resources[k].allowed, t.resources[k].allowed, was, name)
                          && Swapped(s.resources[k].denied, t.resources[k].denied, was, name)
                          && t.resources[k].(allowed := s.resources[k].allowed, denied := s.resources[k].denied) == s.resources[k]))
  {
    FindsDevice(s.devices, identifier);
    hide FindDevice, IsDevice, RenamedIn, Replaced;
    forall names: set<string>, was: string | was != name ensures Swapped(names, Replaced(names, was, name), was, name) {
      ReplacedSwaps(names, was, name);
    }
    assert name in DeviceNames(s.devices) <==> exists d <- s.devices :: d.name == name;
  }

  lemma ReplacedSwaps(names: set<string>, was: string, now: string)
    requires was != now
    ensures Swapped(names, Replaced(names, was, now), was, now)
  {
  }

  // ---------- Resources ----------

  predicate ValidPort(port: int) {
    1 <= port <= 65535 && port != 8788 && port != 8789 && port != 8790
  }

  /** A resource is registered exactly under a valid and unused name, on a permitted port that no other has, with a valid
      configuration, and for enabled devices; it comes last, enabled, and with nobody denied. */
  lemma RegisterMeans(rules: Rules, s: State, r: Resource)
    ensures RegisterResource(rules, s, r).Ok?
            <==> rules.name(r.name) && ValidPort(r.bridgePort) && rules.config(r.unit, r.rest) && (r.selfHeal ==> r.unit != "")
                 && (forall x <- s.resources :: x.name != r.name && x.bridgePort != r.bridgePort)
                 && forall n <- r.allowed :: exists d <- s.devices :: d.enabled && d.name == n
    ensures RegisterResource(rules, s, r).Ok? ==>
              var t := RegisterResource(rules, s, r).value;
              && t.devices == s.devices && t.groups == s.groups
              && |t.resources| == |s.resources| + 1 && t.resources[..|s.resources|] == s.resources
              && var x := t.resources[|s.resources|];
                 && x.name == r.name && x.bridgePort == r.bridgePort && x.allowed == r.allowed && x.denied == {} && x.enabled
                 && x.unit == r.unit && x.selfHeal == r.selfHeal && x.rest == r.rest
  {
    assert r.name in ResourceNames(s.resources) <==> exists x <- s.resources :: x.name == r.name;
    assert forall n :: n in EnabledNames(s.devices) <==> exists d <- s.devices :: d.enabled && d.name == n;
    hide ResourceNames, EnabledNames;
  }

  /** The refusals of a registration, each with its cause. */
  lemma RegisterRefusals(rules: Rules, s: State, r: Resource)
    ensures match RegisterResource(rules, s, r)
            case Ok(_) => true
            case Err(InvalidName) => !rules.name(r.name)
            case Err(InvalidPort) => r.bridgePort < 1 || r.bridgePort > 65535
            case Err(ReservedPort) => r.bridgePort in {8788, 8789, 8790}
            case Err(InvalidConfig) => !rules.config(r.unit, r.rest)
            case Err(MissingUnit) => r.selfHeal && r.unit == ""
            case Err(NameTaken) => exists x <- s.resources :: x.name == r.name
            case Err(PortTaken) => exists x <- s.resources :: x.bridgePort == r.bridgePort
            case Err(UnknownDevice) => exists n <- r.allowed :: forall d <- s.devices :: d.enabled ==> d.name != n
            case Err(_) => false
  {
    assert r.name in ResourceNames(s.resources) <==> exists x <- s.resources :: x.name == r.name;
    assert forall n :: n in EnabledNames(s.devices) <==> exists d <- s.devices :: d.enabled && d.name == n;
    hide ResourceNames, EnabledNames;
  }

  /** A given value replaces the field, and otherwise it stays. */
  ghost predicate Takes<T>(change: Option<T>, was: T, now: T) {
    if change.Some? then now == change.value else now == was
  }

  /** What an update would make of a resource. */
  ghost predicate Changes(was: Resource, now: Resource, port: Option<int>, unit: Option<string>, rest: Option<string>,
                          selfHeal: Option<bool>, enabled: Option<bool>) {
    && now.name == was.name && now.allowed == was.allowed && now.denied == was.denied
    && Takes(port, was.bridgePort, now.bridgePort) && Takes(unit, was.unit, now.unit) && Takes(rest, was.rest, now.rest)
    && Takes(selfHeal, was.selfHeal, now.selfHeal) && Takes(enabled, was.enabled, now.enabled)
  }

  /** An update sets the given fields, exactly if what results has a permitted port that no resource of another name has
      and a valid configuration. */
  lemma UpdateResourceMeans(rules: Rules, s: State, name: string, port: Option<int>, unit: Option<string>, rest: Option<string>,
                            selfHeal: Option<bool>, enabled: Option<bool>, k: nat, now: Resource)
    requires IsResource(s.resources, k, name) && Changes(s.resources[k], now, port, unit, rest, selfHeal, enabled)
    ensures var r := UpdateResource(rules, s, name, port, unit, rest, selfHeal, enabled);
            && (r.Ok? <==>
                  && ValidPort(now.bridgePort) && (forall x <- s.resources :: x.name != name ==> x.bridgePort != now.bridgePort)
                  && rules.config(now.unit, now.rest) && (now.selfHeal ==> now.unit != ""))
            && (r.Ok? ==> OnlyResource(s, r.value, k) && r.value.resources[k] == now)
  {
    UpdateStep(rules, s, name, port, unit, rest, selfHeal, enabled, k, now);
    hide UpdateResource, Changes, IsResource;
  }

  lemma ChangesGive(was: Resource, now: Resource, port: Option<int>, unit: Option<string>, rest: Option<string>,
                    selfHeal: Option<bool>, enabled: Option<bool>)
    requires Changes(was, now, port, unit, rest, selfHeal, enabled)
    ensures was.(bridgePort := Or(port, was.bridgePort), unit := Or(unit, was.unit), rest := Or(rest, was.rest),
                 selfHeal := Or(selfHeal, was.selfHeal), enabled := Or(enabled, was.enabled)) == now
  {
  }

  lemma UpdateStep(rules: Rules, s: State, name: string, port: Option<int>, unit: Option<string>, rest: Option<string>,
                   selfHeal: Option<bool>, enabled: Option<bool>, k: nat, now: Resource)
    requires IsResource(s.resources, k, name) && Changes(s.resources[k], now, port, unit, rest, selfHeal, enabled)
    ensures UpdateResource(rules, s, name, port, unit, rest, selfHeal, enabled)
            == if !(1 <= now.bridgePort <= 65535) then Err(InvalidPort)
               else if now.bridgePort in {8788, 8789, 8790} then Err(ReservedPort)
               else if exists x <- s.resources :: x.name != name && x.bridgePort == now.bridgePort then Err(PortTaken)
               else if !rules.config(now.unit, now.rest) then Err(InvalidConfig)
               else if now.selfHeal && now.unit == "" then Err(MissingUnit)
               else Ok(s.(resources := s.resources[k := now]))
  {
    FindsResource(s.resources, name);
    ChangesGive(s.resources[k], now, port, unit, rest, selfHeal, enabled);
    hide FindResource, IsResource, Changes, Or;
  }

  /** The refusals of an update, each with its cause. */
  lemma UpdateResourceRefusals(rules: Rules, s: State, name: string, port: Option<int>, unit: Option<string>, rest: Option<string>,
                               selfHeal: Option<bool>, enabled: Option<bool>, k: nat, now: Resource)
    requires IsResource(s.resources, k, name) && Changes(s.resources[k], now, port, unit, rest, selfHeal, enabled)
    ensures var r := UpdateResource(rules, s, name, port, unit, rest, selfHeal, enabled);
            && (r == Err(InvalidPort) ==> now.bridgePort < 1 || now.bridgePort > 65535)
            && (r == Err(ReservedPort) ==> now.bridgePort in {8788, 8789, 8790})
            && (r == Err(PortTaken) ==> exists x <- s.resources :: x.name != name && x.bridgePort == now.bridgePort)
            && (r == Err(InvalidConfig) ==> !rules.config(now.unit, now.rest))
            && (r == Err(MissingUnit) ==> now.selfHeal && now.unit == "")
            && (r.Err? ==> r.error in {InvalidPort, ReservedPort, PortTaken, InvalidConfig, MissingUnit})
  {
    UpdateStep(rules, s, name, port, unit, rest, selfHeal, enabled, k, now);
    hide UpdateResource, Changes, IsResource;
  }

  lemma UpdateOfNothing(rules: Rules, s: State, name: string, port: Option<int>, unit: Option<string>, rest: Option<string>,
                        selfHeal: Option<bool>, enabled: Option<bool>)
    requires forall x <- s.resources :: x.name != name
    ensures UpdateResource(rules, s, name, port, unit, rest, selfHeal, enabled) == Err(UnknownResource)
  {
  }

  /** Removing a resource takes it out of its place and its name out of every group. */
  lemma RemoveMeans(s: State, name: string)
    ensures var r := RemoveResource(s, name);
            && (r.Err? <==> forall x <- s.resources :: x.name != name) && (r.Err? ==> r.error == UnknownResource)
    ensures forall k: nat :: IsResource(s.resources, k, name) && UniqueResources(s.resources) ==>
              var r := RemoveResource(s, name);
              && r.Ok? && r.value.devices == s.devices && r.value.resources == s.resources[..k] + s.resources[k + 1..]
              && |r.value.groups| == |s.groups|
              && forall j :: 0 <= j < |s.groups| ==>
                   var g, h := s.groups[j], r.value.groups[j];
                   && h.name == g.name && h.members == g.members && h.enabled == g.enabled && h.info == g.info
                   && h.allowedServices == g.allowedServices - {name}
                   && h.allowedResources == if name in g.allowedServices then g.allowedServices - {name} else g.allowedResources
  {
    assert name in ResourceNames(s.resources) <==> exists x <- s.resources :: x.name == name;
    forall k: nat | IsResource(s.resources, k, name) && UniqueResources(s.resources)
      ensures WithoutNamed(s.resources, name) == s.resources[..k] + s.resources[k + 1..]
    {
      WithoutOne(s.resources, name, k);
    }
    hide WithoutNamed, WithoutService, UniqueResources;
  }

  lemma LastIsLast<T>(items: seq<T>)
    requires items != []
    ensures items == items[..|items| - 1] + [items[|items| - 1]]
  {
  }

  lemma SkipsOne<T>(items: seq<T>, k: nat)
    requires k < |items|
    ensures var init, last := items[..|items| - 1], items[|items| - 1];
            items[..k] + items[k + 1..] == if k < |init| then init[..k] + init[k + 1..] + [last] else init + []
  {
  }

  lemma {:induction false} WithoutOne(resources: seq<Resource>, name: string, k: nat)
    requires k < |resources| && resources[k].name == name && forall i :: 0 <= i < |resources| && i != k ==> resources[i].name != name
    ensures WithoutNamed(resources, name) == resources[..k] + resources[k + 1..]
  {
    var init, last := resources[..|resources| - 1], resources[|resources| - 1];
    WithoutNamedStep(resources, name);
    hide WithoutNamed;
    SkipsOne(resources, k);
    if k < |init| {
      WithoutOne(init, name, k);
    } else {
      WithoutNone(init, name);
    }
  }

  lemma WithoutNamedStep(resources: seq<Resource>, name: string)
    requires resources != []
    ensures var init, last := resources[..|resources| - 1], resources[|resources| - 1];
            WithoutNamed(resources, name) == WithoutNamed(init, name) + if last.name != name then [last] else []
  {
  }

  lemma {:induction false} WithoutNone(resources: seq<Resource>, name: string)
    requires forall i :: 0 <= i < |resources| ==> resources[i].name != name
    ensures WithoutNamed(resources, name) == resources
  {
    if resources != [] {
      WithoutNamedStep(resources, name);
      LastIsLast(resources);
      WithoutNone(resources[..|resources| - 1], name);
      hide WithoutNamed;
    }
  }

  /** A decision about a device and a resource puts the name of the device on one list at most. */
  lemma DecisionMeans(s: State, resource: string, identifier: string, decision: Decision)
    ensures var r := SetAccess(s, resource, identifier, decision);
            var device, found := (exists d <- s.devices :: d.id == identifier || d.name == identifier), exists x <- s.resources :: x.name == resource;
            && (r.Ok? <==> device && found)
            && (r == Err(UnknownDevice) <==> !device) && (r == Err(UnknownResource) <==> device && !found)
    ensures forall i: nat, k: nat :: IsDevice(s.devices, i, identifier) && IsResource(s.resources, k, resource) ==>
              var r := SetAccess(s, resource, identifier, decision);
              && r.Ok? && OnlyResource(s, r.value, k)
              && var was, now := s.resources[k], r.value.resources[k];
                 && (forall n :: n in now.allowed <==> if n == s.devices[i].name then decision == Allow else n in was.allowed)
                 && (forall n :: n in now.denied <==> if n == s.devices[i].name then decision == Deny else n in was.denied)
                 && now.(allowed := was.allowed, denied := was.denied) == was
  {
    FindsDevice(s.devices, identifier);
    FindsResource(s.resources, resource);
    hide FindDevice, FindResource, IsDevice, IsResource;
  }

  // ---------- Groups ----------

  /** A group is created exactly under a valid and unused name; it comes last, enabled and empty. */
  lemma CreateMeans(rules: Rules, s: State, name: string, info: string)
    ensures var r := CreateGroup(rules, s, name, info);
            && (r.Ok? <==> rules.name(name) && forall g <- s.groups :: g.name != name)
            && (r == Err(InvalidName) <==> !rules.name(name)) && (r.Err? ==> r.error in {InvalidName, NameTaken})
            && (r.Ok? ==>
                  var t := r.value;
                  && t.devices == s.devices && t.resources == s.resources && |t.groups| == |s.groups| + 1 && t.groups[..|s.groups|] == s.groups
                  && var g := t.groups[|s.groups|];
                     g.name == name && g.members == {} && g.allowedServices == {} && g.allowedResources == {} && g.enabled && g.info == info)
  {
    FindsGroup(s.groups, name);
    hide FindGroup;
  }

  /** Removing a group takes it out of its place. */
  lemma RemoveGroupMeans(s: State, name: string)
    ensures var r := RemoveGroup(s, name);
            && (r.Err? <==> forall g <- s.groups :: g.name != name) && (r.Err? ==> r.error == UnknownGroup)
    ensures forall k: nat :: IsGroup(s.groups, k, name) && UniqueGroups(s.groups) ==>
              RemoveGroup(s, name) == Ok(State(s.devices, s.resources, s.groups[..k] + s.groups[k + 1..]))
  {
    FindsGroup(s.groups, name);
    forall k: nat | IsGroup(s.groups, k, name) && UniqueGroups(s.groups)
      ensures WithoutGroup(s.groups, name) == s.groups[..k] + s.groups[k + 1..]
    {
      WithoutOneGroup(s.groups, name, k);
    }
    hide WithoutGroup, FindGroup, UniqueGroups;
  }

  lemma {:induction false} WithoutOneGroup(groups: seq<Group>, name: string, k: nat)
    requires k < |groups| && groups[k].name == name && forall i :: 0 <= i < |groups| && i != k ==> groups[i].name != name
    ensures WithoutGroup(groups, name) == groups[..k] + groups[k + 1..]
  {
    var init, last := groups[..|groups| - 1], groups[|groups| - 1];
    WithoutGroupStep(groups, name);
    hide WithoutGroup;
    SkipsOne(groups, k);
    if k < |init| {
      WithoutOneGroup(init, name, k);
    } else {
      WithoutNoGroup(init, name);
    }
  }

  lemma WithoutGroupStep(groups: seq<Group>, name: string)
    requires groups != []
    ensures var init, last := groups[..|groups| - 1], groups[|groups| - 1];
            WithoutGroup(groups, name) == WithoutGroup(init, name) + if last.name != name then [last] else []
  {
  }

  lemma {:induction false} WithoutNoGroup(groups: seq<Group>, name: string)
    requires forall i :: 0 <= i < |groups| ==> groups[i].name != name
    ensures WithoutGroup(groups, name) == groups
  {
    if groups != [] {
      WithoutGroupStep(groups, name);
      LastIsLast(groups);
      WithoutNoGroup(groups[..|groups| - 1], name);
      hide WithoutGroup;
    }
  }

  /** Switching a group, assigning a device to it, and granting a resource to it change that field of that group alone;
      a grant is kept under both keys. */
  lemma GroupMeans(s: State, name: string, identifier: string, resource: string, flag: bool, k: nat)
    requires IsGroup(s.groups, k, name)
    ensures var r := SetGroupEnabled(s, name, flag);
            && r.Ok? && OnlyGroup(s, r.value, k) && r.value.groups[k].enabled == flag
            && r.value.groups[k].(enabled := s.groups[k].enabled) == s.groups[k]
    ensures forall i: nat :: IsDevice(s.devices, i, identifier) ==>
              var r := SetGroupDevice(s, name, identifier, flag);
              && r.Ok? && OnlyGroup(s, r.value, k)
              && (forall id :: id in r.value.groups[k].members <==> if id == s.devices[i].id then flag else id in s.groups[k].members)
              && r.value.groups[k].(members := s.groups[k].members) == s.groups[k]
    ensures (exists x <- s.resources :: x.name == resource) ==>
              var r := SetGroupResource(s, name, resource, flag);
              && r.Ok? && OnlyGroup(s, r.value, k)
              && (forall n :: n in r.value.groups[k].allowedServices <==> if n == resource then flag else n in s.groups[k].allowedServices)
              && r.value.groups[k].allowedResources == r.value.groups[k].allowedServices
              && r.value.groups[k].(allowedServices := s.groups[k].allowedServices, allowedResources := s.groups[k].allowedResources) == s.groups[k]
  {
    FindsGroup(s.groups, name);
    FindsDevice(s.devices, identifier);
    assert resource in ResourceNames(s.resources) <==> exists x <- s.resources :: x.name == resource;
    hide FindGroup, FindDevice, IsDevice, IsGroup, ResourceNames;
  }

  /** What is not there is refused, the device or the resource before the group. */
  lemma GroupRefusals(s: State, name: string, identifier: string, resource: string, flag: bool)
    ensures (forall g <- s.groups :: g.name != name) ==> SetGroupEnabled(s, name, flag) == Err(UnknownGroup)
    ensures if exists d <- s.devices :: d.id == identifier || d.name == identifier
            then (forall g <- s.groups :: g.name != name) ==> SetGroupDevice(s, name, identifier, flag) == Err(UnknownGroup)
            else SetGroupDevice(s, name, identifier, flag) == Err(UnknownDevice)
    ensures if exists x <- s.resources :: x.name == resource
            then (forall g <- s.groups :: g.name != name) ==> SetGroupResource(s, name, resource, flag) == Err(UnknownGroup)
            else SetGroupResource(s, name, resource, flag) == Err(UnknownResource)
  {
    FindsGroup(s.groups, name);
    FindsDevice(s.devices, identifier);
    assert resource in ResourceNames(s.resources) <==> exists x <- s.resources :: x.name == resource;
    hide ResourceNames;
  }

  // ---------- Normalization ----------

  /** A group that permits nothing under the new key takes over the legacy one; empty names vanish. */
  lemma NormalGroupMeans(g: Group)
    ensures var h := NormalizeGroup(g);
            && h.name == g.name && h.enabled == g.enabled && h.info == g.info
            && (forall id :: id in h.members <==> id in g.members && id != "")
            && (forall n :: n in h.allowedServices <==> n != "" && n in (if g.allowedServices == {} then g.allowedResources else g.allowedServices))
            && h.allowedResources == h.allowedServices
  {
  }

  /** A resource without a unit cannot heal itself. */
  lemma NormalResourceMeans(r: Resource)
    ensures var q := NormalizeResource(r);
            && (q.selfHeal <==> r.selfHeal && r.unit != "") && q.(selfHeal := r.selfHeal) == r
  {
  }
}
