/**
 Every registry operation keeps the referential integrity of devices, resources and groups.
 */
module RegistryIntegrity {
  import opened Wrappers
  import opened Registry

  // ---------- Replacing one element ----------

  lemma SameResourceNames(before: seq<Resource>, after: seq<Resource>)
    requires |before| == |after| && forall i :: 0 <= i < |before| ==> before[i].name == after[i].name
    ensures ResourceNames(after) == ResourceNames(before)
  {
  }

  lemma ReplacedDeviceIds(devices: seq<Device>, i: nat, d: Device)
    requires i < |devices| && d.id == devices[i].id
    ensures DeviceIds(devices[i := d]) == DeviceIds(devices)
  {
    var after := devices[i := d];
    forall id ensures id in DeviceIds(after) <==> id in DeviceIds(devices) {
      if id in DeviceIds(after) {
        var j :| 0 <= j < |after| && after[j].id == id;
        assert devices[j] in devices;
      }
      if id in DeviceIds(devices) {
        var j :| 0 <= j < |devices| && devices[j].id == id;
        assert after[j] in after;
      }
    }
  }

  lemma ReplacedDeviceNames(devices: seq<Device>, i: nat, d: Device)
    requires i < |devices| && forall j :: 0 <= j < |devices| && j != i ==> devices[j].name != devices[i].name
    ensures DeviceNames(devices[i := d]) == DeviceNames(devices) - {devices[i].name} + {d.name}
  {
    var after := devices[i := d];
    forall name ensures name in DeviceNames(after) <==> name in DeviceNames(devices) - {devices[i].name} + {d.name} {
      if name in DeviceNames(after) {
        var j :| 0 <= j < |after| && after[j].name == name;
        assert devices[j] in devices;
      }
      if name in DeviceNames(devices) - {devices[i].name} {
        var j :| 0 <= j < |devices| && devices[j].name == name;
        assert after[j] in after;
      }
      assert after[i] in after;
    }
  }

  lemma DeviceReplaced(rules: Rules, devices: seq<Device>, i: nat, d: Device)
    requires GoodDevices(rules, devices) && i < |devices| && GoodDevice(rules, d)
    requires d.id == devices[i].id && d.host == devices[i].host
    requires d.name == devices[i].name || d.name !in DeviceNames(devices)
    ensures GoodDevices(rules, devices[i := d])
    ensures DeviceIds(devices[i := d]) == DeviceIds(devices)
    ensures DeviceNames(devices[i := d]) == DeviceNames(devices) - {devices[i].name} + {d.name}
  {
    ReplacedDeviceIds(devices, i, d);
    ReplacedDeviceNames(devices, i, d);
    hide GoodDevice, DeviceIds;
    var after := devices[i := d];
    assert forall j | 0 <= j < |devices| :: devices[j] in devices && after[j] == if j == i then d else devices[j];
    assert forall x <- after :: x == d || x in devices;
  }

  lemma ResourceReplaced(rules: Rules, resources: seq<Resource>, k: nat, r: Resource, names: set<string>)
    requires GoodResources(rules, resources, names) && k < |resources| && GoodResource(rules, r, names)
    requires r.name == resources[k].name
    requires forall x <- resources :: x.name != r.name ==> x.bridgePort != r.bridgePort
    ensures GoodResources(rules, resources[k := r], names)
    ensures ResourceNames(resources[k := r]) == ResourceNames(resources)
  {
    hide GoodResource, ResourceNames;
    var after := resources[k := r];
    SameResourceNames(resources, after);
    assert forall j | 0 <= j < |resources| :: resources[j] in resources && after[j] == if j == k then r else resources[j];
    assert forall x <- after :: x == r || x in resources;
  }

  lemma GroupReplaced(rules: Rules, groups: seq<Group>, i: nat, g: Group, ids: set<string>, names: set<string>)
    requires GoodGroups(rules, groups, ids, names) && i < |groups| && GoodGroup(rules, g, ids, names)
    requires g.name == groups[i].name
    ensures GoodGroups(rules, groups[i := g], ids, names)
  {
  }

  // ---------- Devices ----------

  lemma AddDeviceKeeps(rules: Rules, s: State, d: Device)
    requires Integrity(rules, s) && AddDevice(rules, s, d).Ok? && d.id != ""
    ensures Integrity(rules, AddDevice(rules, s, d).value)
  {
    hide GoodResource, GoodGroup;
    var t := AddDevice(rules, s, d).value;
    var added := t.devices[|s.devices|];
    assert forall x <- t.devices :: x in s.devices || x == added;
    assert forall i | 0 <= i < |s.devices| :: s.devices[i] in s.devices;
    assert GoodDevices(rules, t.devices);
    assert added in t.devices && forall x <- s.devices :: x in t.devices;
    assert DeviceNames(s.devices) <= DeviceNames(t.devices) && DeviceIds(s.devices) <= DeviceIds(t.devices);
    MoreNames(rules, s, t);
  }

  /** More devices do not hurt resources and groups. */
  lemma MoreNames(rules: Rules, s: State, t: State)
    requires GoodResources(rules, s.resources, DeviceNames(s.devices))
    requires GoodGroups(rules, s.groups, DeviceIds(s.devices), ResourceNames(s.resources))
    requires DeviceNames(s.devices) <= DeviceNames(t.devices) && DeviceIds(s.devices) <= DeviceIds(t.devices)
    requires t.resources == s.resources && t.groups == s.groups
    ensures GoodResources(rules, t.resources, DeviceNames(t.devices))
    ensures GoodGroups(rules, t.groups, DeviceIds(t.devices), ResourceNames(t.resources))
  {
  }

  lemma ChangeDeviceKeeps(rules: Rules, s: State, i: nat, d: Device)
    requires Integrity(rules, s) && i < |s.devices|
    requires d.id == s.devices[i].id && d.host == s.devices[i].host && d.name == s.devices[i].name
    ensures Integrity(rules, s.(devices := s.devices[i := d]))
  {
    hide GoodResource, GoodGroup, DeviceIds, DeviceNames, UniqueDevices, DistinctHosts;
    assert s.devices[i] in s.devices;
    DeviceReplaced(rules, s.devices, i, d);
    NameOf(s.devices, i);
    assert DeviceNames(s.devices[i := d]) == DeviceNames(s.devices);
  }

  lemma NameOf(devices: seq<Device>, i: nat)
    requires i < |devices|
    ensures devices[i].name in DeviceNames(devices) && devices[i].id in DeviceIds(devices)
  {
  }

  lemma ReplacedName(names: set<string>, was: string, now: string, all: set<string>)
    requires names <= all
    ensures Replaced(names, was, now) <= all - {was} + {now}
  {
  }

  lemma RenamedResources(rules: Rules, resources: seq<Resource>, was: string, now: string, names: set<string>)
    requires GoodResources(rules, resources, names) && was in names && now !in names
    ensures GoodResources(rules, RenamedIn(resources, was, now), names - {was} + {now})
    ensures ResourceNames(RenamedIn(resources, was, now)) == ResourceNames(resources)
  {
    hide ResourceNames;
    var after := RenamedIn(resources, was, now);
    forall i | 0 <= i < |after| ensures GoodResource(rules, after[i], names - {was} + {now}) {
      assert resources[i] in resources;
      assert GoodResource(rules, resources[i], names);
      ReplacedName(resources[i].allowed, was, now, names);
      ReplacedName(resources[i].denied, was, now, names);
    }
    SameResourceNames(resources, after);
  }

  lemma RenameKeeps(rules: Rules, s: State, identifier: string, name: string)
    requires Integrity(rules, s) && RenameDevice(rules, s, identifier, name).Ok?
    ensures Integrity(rules, RenameDevice(rules, s, identifier, name).value)
  {
    hide GoodResource, GoodGroup, DeviceIds, DeviceNames, ResourceNames, UniqueDevices, DistinctHosts, UniqueResources, RenamedIn;
    var i := FindDevice(s.devices, identifier).value;
    var was := s.devices[i].name;
    if was != name {
      assert s.devices[i] in s.devices;
      NameOf(s.devices, i);
      DeviceReplaced(rules, s.devices, i, s.devices[i].(name := name));
      RenamedResources(rules, s.resources, was, name, DeviceNames(s.devices));
    }
  }

  // ---------- Resources ----------

  lemma RegisterKeeps(rules: Rules, s: State, r: Resource)
    requires Integrity(rules, s) && RegisterResource(rules, s, r).Ok?
    ensures Integrity(rules, RegisterResource(rules, s, r).value)
  {
  }

  lemma UpdateResourceKeeps(rules: Rules, s: State, name: string, port: Option<int>, unit: Option<string>, rest: Option<string>,
                            selfHeal: Option<bool>, enabled: Option<bool>)
    requires Integrity(rules, s) && UpdateResource(rules, s, name, port, unit, rest, selfHeal, enabled).Ok?
    ensures Integrity(rules, UpdateResource(rules, s, name, port, unit, rest, selfHeal, enabled).value)
  {
    hide GoodDevices, GoodGroup, DeviceNames, DeviceIds, ResourceNames, UniqueResources, UniqueGroups;
    var k := FindResource(s.resources, name).value;
    var t := UpdateResource(rules, s, name, port, unit, rest, selfHeal, enabled).value;
    assert s.resources[k] in s.resources;
    ResourceReplaced(rules, s.resources, k, t.resources[k], DeviceNames(s.devices));
  }

  lemma SetAccessKeeps(rules: Rules, s: State, name: string, identifier: string, decision: Decision)
    requires Integrity(rules, s) && SetAccess(s, name, identifier, decision).Ok?
    ensures Integrity(rules, SetAccess(s, name, identifier, decision).value)
  {
    hide GoodDevices, GoodGroup, DeviceNames, DeviceIds, ResourceNames, UniqueGroups;
    var i, k := FindDevice(s.devices, identifier).value, FindResource(s.resources, name).value;
    var t := SetAccess(s, name, identifier, decision).value;
    NameOf(s.devices, i);
    assert s.resources[k] in s.resources;
    assert GoodResource(rules, s.resources[k], DeviceNames(s.devices));
    assert GoodResource(rules, t.resources[k], DeviceNames(s.devices));
    assert forall x <- s.resources :: x.name != s.resources[k].name ==> x.bridgePort != s.resources[k].bridgePort;
    ResourceReplaced(rules, s.resources, k, t.resources[k], DeviceNames(s.devices));
  }

  lemma {:induction false} WithoutNamedUnique(resources: seq<Resource>, name: string)
    requires UniqueResources(resources)
    ensures UniqueResources(WithoutNamed(resources, name))
  {
    if resources != [] {
      var init := resources[..|resources| - 1];
      WithoutNamedUnique(init, name);
      forall x <- WithoutNamed(init, name)
        ensures x.name != resources[|init|].name && x.bridgePort != resources[|init|].bridgePort
      {
        var i :| 0 <= i < |init| && init[i] == x;
      }
    }
  }

  lemma {:induction false} WithoutGroupUnique(groups: seq<Group>, name: string)
    requires UniqueGroups(groups)
    ensures UniqueGroups(WithoutGroup(groups, name))
  {
    if groups != [] {
      var init := groups[..|groups| - 1];
      WithoutGroupUnique(init, name);
      forall x <- WithoutGroup(init, name) ensures x.name != groups[|init|].name {
        var i :| 0 <= i < |init| && init[i] == x;
      }
    }
  }

  /** Removing a resource takes it out of all groups, so that their check passes. */
  lemma RemoveKeeps(rules: Rules, s: State, name: string)
    requires Integrity(rules, s) && RemoveResource(s, name).Ok?
    ensures Integrity(rules, RemoveResource(s, name).value)
    ensures ResourceNames(RemoveResource(s, name).value.resources) == ResourceNames(s.resources) - {name}
  {
    hide GoodDevices, GoodResource, UniqueResources;
    var t := RemoveResource(s, name).value;
    WithoutNamedUnique(s.resources, name);
    assert ResourceNames(t.resources) == ResourceNames(s.resources) - {name};
    forall i | 0 <= i < |t.groups| ensures GoodGroup(rules, t.groups[i], DeviceIds(s.devices), ResourceNames(t.resources)) {
      assert s.groups[i] in s.groups;
      assert GoodGroup(rules, s.groups[i], DeviceIds(s.devices), ResourceNames(s.resources));
    }
  }

  // ---------- Groups ----------

  lemma CreateGroupKeeps(rules: Rules, s: State, name: string, info: string)
    requires Integrity(rules, s) && CreateGroup(rules, s, name, info).Ok?
    ensures Integrity(rules, CreateGroup(rules, s, name, info).value)
  {
  }

  lemma RemoveGroupKeeps(rules: Rules, s: State, name: string)
    requires Integrity(rules, s) && RemoveGroup(s, name).Ok?
    ensures Integrity(rules, RemoveGroup(s, name).value)
  {
    hide GoodDevices, GoodResources, UniqueGroups;
    WithoutGroupUnique(s.groups, name);
  }

  lemma ChangeGroupKeeps(rules: Rules, s: State, i: nat, g: Group)
    requires Integrity(rules, s) && i < |s.groups| && g.name == s.groups[i].name
    requires g.members <= s.groups[i].members + DeviceIds(s.devices)
    requires g.allowedServices <= s.groups[i].allowedServices + ResourceNames(s.resources)
    requires g.allowedResources == if g.allowedServices == s.groups[i].allowedServices then s.groups[i].allowedResources else g.allowedServices
    ensures Integrity(rules, s.(groups := s.groups[i := g]))
  {
    hide GoodDevices, GoodResources, DeviceIds, ResourceNames, UniqueGroups;
    assert s.groups[i] in s.groups;
    assert GoodGroup(rules, s.groups[i], DeviceIds(s.devices), ResourceNames(s.resources));
    GroupReplaced(rules, s.groups, i, g, DeviceIds(s.devices), ResourceNames(s.resources));
  }

  // ---------- All operations ----------

  lemma ApplyKeeps(rules: Rules, s: State, op: Operation)
    requires Integrity(rules, s) && Apply(rules, s, op).Ok?
    ensures Integrity(rules, Apply(rules, s, op).value)
  {
    hide Integrity, AddDevice, RenameDevice, RegisterResource, UpdateResource, RemoveResource, SetAccess, CreateGroup, RemoveGroup;
    match op
    case AddingDevice(d) => AddDeviceKeeps(rules, s, d);
    case EnablingDevice(identifier, enabled) =>
      var i := FindDevice(s.devices, identifier).value;
      ChangeDeviceKeeps(rules, s, i, s.devices[i].(enabled := enabled));
    case UpdatingDevice(identifier, expiry, info) =>
      var i := FindDevice(s.devices, identifier).value;
      ChangeDeviceKeeps(rules, s, i, s.devices[i].(expiry := expiry, info := info));
    case RenamingDevice(identifier, name) => RenameKeeps(rules, s, identifier, name);
    case Registering(r) => RegisterKeeps(rules, s, r);
    case Updating(name, port, unit, rest, selfHeal, enabled) =>
      UpdateResourceKeeps(rules, s, name, port, unit, rest, selfHeal, enabled);
    case Removing(name) => RemoveKeeps(rules, s, name);
    case Overriding(name, identifier, decision) => SetAccessKeeps(rules, s, name, identifier, decision);
    case CreatingGroup(name, info) => CreateGroupKeeps(rules, s, name, info);
    case RemovingGroup(name) => RemoveGroupKeeps(rules, s, name);
    case EnablingGroup(name, enabled) =>
      var i := FindGroup(s.groups, name).value;
      ChangeGroupKeeps(rules, s, i, s.groups[i].(enabled := enabled));
    case Assigning(name, identifier, member) =>
      var i := FindGroup(s.groups, name).value;
      NameOf(s.devices, FindDevice(s.devices, identifier).value);
      ChangeGroupKeeps(rules, s, i, SetGroupDevice(s, name, identifier, member).value.groups[i]);
    case Granting(name, resource, granted) =>
      var i := FindGroup(s.groups, name).value;
      GroupAgrees(rules, s, i);
      ChangeGroupKeeps(rules, s, i, SetGroupResource(s, name, resource, granted).value.groups[i]);
  }

  lemma GroupAgrees(rules: Rules, s: State, i: nat)
    requires Integrity(rules, s) && i < |s.groups|
    ensures s.groups[i].allowedResources == s.groups[i].allowedServices
  {
    hide GoodDevices, GoodResources, UniqueGroups;
    assert s.groups[i] in s.groups;
    assert GoodGroup(rules, s.groups[i], DeviceIds(s.devices), ResourceNames(s.resources));
  }

  /** No operation takes a device away. */
  lemma ApplyKeepsIds(rules: Rules, s: State, op: Operation)
    requires Apply(rules, s, op).Ok?
    ensures DeviceIds(s.devices) <= DeviceIds(Apply(rules, s, op).value.devices)
  {
    var t := Apply(rules, s, op).value;
    hide Apply;
    forall id <- DeviceIds(s.devices) ensures id in DeviceIds(t.devices) {
      var i :| 0 <= i < |s.devices| && s.devices[i].id == id;
      DeviceStays(rules, s, op, i);
      assert t.devices[i] in t.devices;
    }
  }

  lemma DeviceStays(rules: Rules, s: State, op: Operation, i: nat)
    requires Apply(rules, s, op).Ok? && i < |s.devices|
    ensures var t := Apply(rules, s, op).value; i < |t.devices| && t.devices[i].id == s.devices[i].id
  {
    hide RenamedIn, WithoutNamed, WithoutService, WithoutGroup, DeviceNames, DeviceIds, UsedHosts, NextHost;
  }

  /** Every run of completed operations from empty registries keeps the integrity of the registries. */
  lemma {:induction false} RunKeepsIntegrity(rules: Rules, ops: seq<Operation>)
    ensures Integrity(rules, After(rules, ops))
  {
    hide Apply, Integrity;
    if ops == [] {
      EmptyIsGood(rules);
    } else {
      var s := After(rules, ops[..|ops| - 1]);
      RunKeepsIntegrity(rules, ops[..|ops| - 1]);
      if Apply(rules, s, ops[|ops| - 1]).Ok? {
        ApplyKeeps(rules, s, ops[|ops| - 1]);
      }
    }
  }

  lemma EmptyIsGood(rules: Rules)
    ensures Integrity(rules, EMPTY)
  {
  }
}
