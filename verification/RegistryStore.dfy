/**
 The registry files and the operations that load, change and save them (core.py). Resources are written to two
 files, and reading falls back to the second when the first is empty. Writes are taken to succeed.
 */
module RegistryStore {
  import opened Wrappers
  import opened Registry
  import opened RegistryIntegrity

  function ReadResources(resources: seq<Resource>, services: seq<Resource>): seq<Resource> {
    NormalizedResources(if resources != [] then resources else services)
  }

  /** A read after a completed save returns the normalized list, even an empty one. */
  lemma ReadAfterSave(items: seq<Resource>)
    ensures ReadResources(NormalizedResources(items), NormalizedResources(items)) == NormalizedResources(items)
  {
    var saved := NormalizedResources(items);
    var read := ReadResources(saved, saved);
    assert forall i | 0 <= i < |read| :: read[i] == saved[i];
  }

  /** After a crash between the two writes the new list is read, unless it is empty and the old mirror is not. */
  lemma CrashBetweenWrites(items: seq<Resource>, mirror: seq<Resource>)
    ensures ReadResources(NormalizedResources(items), mirror) == NormalizedResources(items)
            <==> items != [] || mirror == []
  {
    var saved := NormalizedResources(items);
    var read := ReadResources(saved, mirror);
    if items != [] {
      assert forall i | 0 <= i < |read| :: read[i] == saved[i];
    }
  }

  lemma NormalResources(rules: Rules, resources: seq<Resource>, names: set<string>)
    requires GoodResources(rules, resources, names)
    ensures NormalizedResources(resources) == resources
  {
    hide UniqueResources;
    forall i | 0 <= i < |resources| ensures NormalizeResource(resources[i]) == resources[i] {
      assert GoodResource(rules, resources[i], names);
    }
  }

  lemma NormalGroups(rules: Rules, groups: seq<Group>, ids: set<string>, names: set<string>)
    requires GoodGroups(rules, groups, ids, names) && "" !in ids && "" !in names
    ensures NormalizedGroups(groups) == groups
  {
    hide UniqueGroups;
    forall i | 0 <= i < |groups| ensures NormalizeGroup(groups[i]) == groups[i] {
      assert GoodGroup(rules, groups[i], ids, names);
    }
  }

  /** In registries with integrity every file reads back as it is. */
  lemma NormalState(rules: Rules, s: State)
    requires Integrity(rules, s) && NamesNonEmpty(rules)
    ensures NormalizedResources(s.resources) == s.resources && NormalizedGroups(s.groups) == s.groups
  {
    hide UniqueDevices, UniqueResources, UniqueGroups, DistinctHosts;
    assert "" !in DeviceIds(s.devices) by {
      assert forall d <- s.devices :: GoodDevice(rules, d);
    }
    assert "" !in ResourceNames(s.resources) by {
      assert forall r <- s.resources :: GoodResource(rules, r, DeviceNames(s.devices));
    }
    NormalResources(rules, s.resources, DeviceNames(s.devices));
    NormalGroups(rules, s.groups, DeviceIds(s.devices), ResourceNames(s.resources));
  }

  predicate GroupsSavable(rules: Rules, groups: seq<Group>, ids: set<string>, names: set<string>) {
    && UniqueGroups(groups)
    && forall g <- groups :: rules.name(g.name) && g.members <= ids && g.allowedServices <= names
  }

  /** What an operation returns and leaves, given what it should come to. */
  ghost predicate Comes(expected: Result<State, Error>, error: Option<Error>, before: State, after: State) {
    match expected
    case Ok(t) => error == None && after == t
    case Err(e) => error == Some(e) && after == before
  }

  /** The registries with one device renamed. */
  ghost function Renamed(s: State, i: nat, name: string): State
    requires i < |s.devices|
  {
    s.(devices := s.devices[i := s.devices[i].(name := name)], resources := RenamedIn(s.resources, s.devices[i].name, name))
  }

  method RenameInLists(items: seq<Resource>, was: string, now: string) returns (renamed: seq<Resource>, changed: bool)
    ensures renamed == RenamedIn(items, was, now) && (!changed ==> renamed == items)
  {
    renamed, changed := [], false;
    for k := 0 to |items|
      invariant renamed == RenamedIn(items[..k], was, now)
      invariant !changed ==> renamed == items[..k]
    {
      assert items[..k + 1][..k] == items[..k];
      var r := items[k];
      if was in r.allowed || was in r.denied {
        changed := true;
      }
      renamed := renamed + [r.(allowed := Replaced(r.allowed, was, now), denied := Replaced(r.denied, was, now))];
    }
    assert items[..|items|] == items;
  }

  method StripFromGroups(all: seq<Group>, name: string) returns (stripped: seq<Group>, changed: bool)
    ensures stripped == WithoutService(all, name) && (!changed ==> stripped == all)
  {
    stripped, changed := [], false;
    for i := 0 to |all|
      invariant stripped == WithoutService(all[..i], name)
      invariant !changed ==> stripped == all[..i]
    {
      assert all[..i + 1][..i] == all[..i];
      if name in all[i].allowedServices {
        changed := true;
      }
      stripped := stripped + [StripService(all[i], name)];
    }
    assert all[..|all|] == all;
  }

  class Store {
    var devices: seq<Device>
    var resources: seq<Resource>
    var services: seq<Resource>
    var groups: seq<Group>
    const rules: Rules

    ghost function Contents(): State
      reads this
    {
      State(devices, resources, groups)
    }

    ghost predicate Valid()
      reads this
    {
      Integrity(rules, Contents()) && services == resources && NamesNonEmpty(rules)
    }

    constructor (rules: Rules)
      requires NamesNonEmpty(rules)
      ensures Valid() && Contents() == EMPTY && this.rules == rules
    {
      this.rules := rules;
      devices, resources, services, groups := [], [], [], [];
    }

    // ---------- Files ----------

    method ListResources() returns (items: seq<Resource>)
      ensures items == ReadResources(resources, services)
      ensures Valid() ==> items == resources
    {
      hide Integrity;
      var source := if resources != [] then resources else services;
      items := [];
      for i := 0 to |source|
        invariant items == NormalizedResources(source[..i])
      {
        assert source[..i + 1][..i] == source[..i];
        items := items + [NormalizeResource(source[i])];
      }
      assert source[..|source|] == source;
      if Integrity(rules, Contents()) && NamesNonEmpty(rules) {
        NormalState(rules, Contents());
      }
    }

    method ListGroups() returns (items: seq<Group>)
      ensures items == NormalizedGroups(groups)
      ensures Valid() ==> items == groups
    {
      hide Integrity;
      items := [];
      for i := 0 to |groups|
        invariant items == NormalizedGroups(groups[..i])
      {
        assert groups[..i + 1][..i] == groups[..i];
        items := items + [NormalizeGroup(groups[i])];
      }
      assert groups[..|groups|] == groups;
      if Integrity(rules, Contents()) && NamesNonEmpty(rules) {
        NormalState(rules, Contents());
      }
    }

    method SaveDevices(items: seq<Device>) returns (ok: bool)
      modifies this`devices
      ensures ok <==> UniqueDevices(items)
      ensures devices == if ok then items else old(devices)
    {
      ok := UniqueDevices(items);
      if ok {
        devices := items;
      }
    }

    method SaveResources(items: seq<Resource>) returns (ok: bool)
      modifies this`resources, this`services
      ensures ok <==> UniqueResources(NormalizedResources(items))
      ensures ok ==> resources == NormalizedResources(items) && services == resources
      ensures !ok ==> resources == old(resources) && services == old(services)
    {
      var normalized := NormalizedResources(items);
      ok := UniqueResources(normalized);
      if ok {
        resources := normalized;
        services := normalized;
      }
    }

    method SaveGroups(items: seq<Group>) returns (ok: bool)
      modifies this`groups
      ensures ok <==> GroupsSavable(rules, NormalizedGroups(items), DeviceIds(devices), ResourceNames(ReadResources(resources, services)))
      ensures groups == if ok then NormalizedGroups(items) else old(groups)
    {
      var normalized := NormalizedGroups(items);
      var known := ListResources();
      ok := GroupsSavable(rules, normalized, DeviceIds(devices), ResourceNames(known));
      if ok {
        groups := normalized;
      }
    }

    /** The result of an operation can be saved as it is: none of the checks of the files refuses it. */
    lemma Savable(t: State)
      requires Integrity(rules, t) && NamesNonEmpty(rules)
      ensures UniqueDevices(t.devices)
      ensures NormalizedResources(t.resources) == t.resources && UniqueResources(t.resources)
      ensures ReadResources(t.resources, t.resources) == t.resources
      ensures NormalizedGroups(t.groups) == t.groups
      ensures GroupsSavable(rules, t.groups, DeviceIds(t.devices), ResourceNames(t.resources))
    {
      hide UniqueDevices, UniqueResources, UniqueGroups, DistinctHosts, GoodDevice, GoodResource, DeviceIds, ResourceNames, DeviceNames;
      NormalState(rules, t);
      assert forall g <- t.groups :: GoodGroup(rules, g, DeviceIds(t.devices), ResourceNames(t.resources));
    }

    // ---------- Devices ----------

    method AddDevice(d: Device) returns (error: Option<Error>)
      requires Valid() && d.id != ""
      modifies this
      ensures Valid() && Comes(Registry.AddDevice(rules, old(Contents()), d), error, old(Contents()), Contents())
    {
      hide Integrity, UniqueDevices, UniqueResources, GroupsSavable, NormalizedResources, NormalizedGroups, ReadResources,
           DeviceIds, DeviceNames, ResourceNames, UsedHosts, NextHost;
      ghost var before := Contents();
      if Registry.AddDevice(rules, before, d).Ok? {
        AddDeviceKeeps(rules, before, d);
        Savable(Registry.AddDevice(rules, before, d).value);
      }
      if !rules.name(d.name) {
        return Some(InvalidName);
      }
      if d.name in DeviceNames(devices) {
        return Some(NameTaken);
      }
      if !rules.kind(d.info) {
        return Some(InvalidInfo);
      }
      var host := NextHost(UsedHosts(devices), 2);
      if host.None? {
        return Some(NoFreeIp);
      }
      if !rules.info(d.expiry, d.info) {
        return Some(InvalidInfo);
      }
      var added := d.(host := host.value);
      if d.id in DeviceIds(devices) {
        SameIdIsNotUnique(devices, added);
      }
      var ok := SaveDevices(devices + [added]);
      error := if ok then None else Some(DuplicateId);
    }

    method SetDeviceEnabled(identifier: string, enabled: bool) returns (error: Option<Error>)
      requires Valid()
      modifies this
      ensures Valid() && Comes(Registry.SetDeviceEnabled(old(Contents()), identifier, enabled), error, old(Contents()), Contents())
    {
      hide Integrity;
      var i := FindDevice(devices, identifier);
      if i.None? {
        return Some(UnknownDevice);
      }
      var d := devices[i.value].(enabled := enabled);
      ChangeDeviceKeeps(rules, Contents(), i.value, d);
      Savable(Contents().(devices := devices[i.value := d]));
      var ok := SaveDevices(devices[i.value := d]);
      error := None;
    }

    method UpdateDevice(identifier: string, expiry: Expiry, info: string) returns (error: Option<Error>)
      requires Valid()
      modifies this
      ensures Valid() && Comes(Registry.UpdateDevice(rules, old(Contents()), identifier, expiry, info), error, old(Contents()), Contents())
    {
      hide Integrity;
      var i := FindDevice(devices, identifier);
      if i.None? {
        return Some(UnknownDevice);
      }
      if !ValidInfo(rules, expiry, info) {
        return Some(InvalidInfo);
      }
      var d := devices[i.value].(expiry := expiry, info := info);
      ChangeDeviceKeeps(rules, Contents(), i.value, d);
      Savable(Contents().(devices := devices[i.value := d]));
      var ok := SaveDevices(devices[i.value := d]);
      error := None;
    }

    method RenameDevice(identifier: string, name: string) returns (error: Option<Error>)
      requires Valid()
      modifies this
      ensures Valid() && Comes(Registry.RenameDevice(rules, old(Contents()), identifier, name), error, old(Contents()), Contents())
    {
      hide Integrity, NormalizedResources, ReadResources, RenamedIn;
      if !rules.name(name) {
        return Some(InvalidName);
      }
      var i := FindDevice(devices, identifier);
      if i.None? {
        return Some(UnknownDevice);
      }
      if name == devices[i.value].name {
        return None;
      }
      if name in DeviceNames(devices) {
        return Some(NameTaken);
      }
      RenameKeeps(rules, Contents(), identifier, name);
      RenameFound(i.value, name);
      error := None;
    }

    /** Devices are saved first; resources only if one of their lists changed. */
    method RenameFound(i: nat, name: string)
      requires Valid() && i < |devices| && Integrity(rules, Renamed(Contents(), i, name))
      modifies this
      ensures Valid() && Contents() == Renamed(old(Contents()), i, name)
    {
      hide Integrity, UniqueDevices, UniqueResources, GroupsSavable, NormalizedResources, NormalizedGroups, ReadResources,
           DeviceIds, ResourceNames, RenamedIn;
      Savable(Renamed(Contents(), i, name));
      var was := devices[i].name;
      var items := ListResources();
      var ok := SaveDevices(devices[i := devices[i].(name := name)]);
      var renamed, changed := RenameInLists(items, was, name);
      if changed {
        ok := SaveResources(renamed);
      }
    }

    // ---------- Resources ----------

    method RegisterResource(r: Resource) returns (error: Option<Error>)
      requires Valid()
      modifies this
      ensures Valid() && Comes(Registry.RegisterResource(rules, old(Contents()), r), error, old(Contents()), Contents())
    {
      hide Integrity, UniqueResources, ReadResources, NormalizedResources;
      ghost var before := Contents();
      if Registry.RegisterResource(rules, before, r).Ok? {
        RegisterKeeps(rules, before, r);
        Savable(Registry.RegisterResource(rules, before, r).value);
      }
      if !rules.name(r.name) {
        return Some(InvalidName);
      }
      if !(1 <= r.bridgePort <= 65535) {
        return Some(InvalidPort);
      }
      if !rules.config(r.unit, r.rest) {
        return Some(InvalidConfig);
      }
      if r.selfHeal && r.unit == "" {
        return Some(MissingUnit);
      }
      if r.bridgePort in Reserved() {
        return Some(ReservedPort);
      }
      var items := ListResources();
      if r.name in ResourceNames(items) {
        return Some(NameTaken);
      }
      if exists x <- items :: x.bridgePort == r.bridgePort {
        return Some(PortTaken);
      }
      if !(r.allowed <= EnabledNames(devices)) {
        return Some(UnknownDevice);
      }
      var ok := SaveResources(items + [r.(denied := {}, enabled := true)]);
      error := None;
    }

    method UpdateResource(name: string, port: Option<int>, unit: Option<string>, rest: Option<string>,
                          selfHeal: Option<bool>, enabled: Option<bool>) returns (error: Option<Error>)
      requires Valid()
      modifies this
      ensures Valid()
      ensures Comes(Registry.UpdateResource(rules, old(Contents()), name, port, unit, rest, selfHeal, enabled),
                    error, old(Contents()), Contents())
    {
      hide Integrity, UniqueResources, ReadResources, NormalizedResources;
      ghost var before := Contents();
      if Registry.UpdateResource(rules, before, name, port, unit, rest, selfHeal, enabled).Ok? {
        UpdateResourceKeeps(rules, before, name, port, unit, rest, selfHeal, enabled);
        Savable(Registry.UpdateResource(rules, before, name, port, unit, rest, selfHeal, enabled).value);
      }
      var items := ListResources();
      var k := FindResource(items, name);
      if k.None? {
        return Some(UnknownResource);
      }
      var was := items[k.value];
      var newPort := Or(port, was.bridgePort);
      if !(1 <= newPort <= 65535) {
        return Some(InvalidPort);
      }
      if newPort in Reserved() {
        return Some(ReservedPort);
      }
      if exists x <- items :: x.name != name && x.bridgePort == newPort {
        return Some(PortTaken);
      }
      var newUnit, newRest, newHeal := Or(unit, was.unit), Or(rest, was.rest), Or(selfHeal, was.selfHeal);
      if !rules.config(newUnit, newRest) {
        return Some(InvalidConfig);
      }
      if newHeal && newUnit == "" {
        return Some(MissingUnit);
      }
      var r := was.(bridgePort := newPort, unit := newUnit, rest := newRest, selfHeal := newHeal, enabled := Or(enabled, was.enabled));
      var ok := SaveResources(items[k.value := r]);
      error := None;
    }

    /** The groups are saved after the resource is gone, and their check never refuses. */
    method RemoveResource(name: string) returns (error: Option<Error>)
      requires Valid()
      modifies this
      ensures Valid() && Comes(Registry.RemoveResource(old(Contents()), name), error, old(Contents()), Contents())
    {
      hide Integrity, UniqueResources, GroupsSavable, NormalizedResources, NormalizedGroups, ReadResources, ResourceNames,
           WithoutNamed, WithoutService;
      ghost var before := Contents();
      NormalState(rules, before);
      if Registry.RemoveResource(before, name).Ok? {
        RemoveKeeps(rules, before, name);
        Savable(Registry.RemoveResource(before, name).value);
      }
      var items := ListResources();
      if name !in ResourceNames(items) {
        return Some(UnknownResource);
      }
      var ok := SaveResources(WithoutNamed(items, name));
      var all := ListGroups();
      var stripped, changed := StripFromGroups(all, name);
      if changed {
        ok := SaveGroups(stripped);
        assert ok;
      }
      error := None;
    }

    method SetAccess(resource: string, identifier: string, decision: Decision) returns (error: Option<Error>)
      requires Valid()
      modifies this
      ensures Valid() && Comes(Registry.SetAccess(old(Contents()), resource, identifier, decision), error, old(Contents()), Contents())
    {
      hide Integrity, UniqueResources, ReadResources, NormalizedResources;
      ghost var before := Contents();
      if Registry.SetAccess(before, resource, identifier, decision).Ok? {
        SetAccessKeeps(rules, before, resource, identifier, decision);
        Savable(Registry.SetAccess(before, resource, identifier, decision).value);
      }
      var i := FindDevice(devices, identifier);
      if i.None? {
        return Some(UnknownDevice);
      }
      var items := ListResources();
      var k := FindResource(items, resource);
      if k.None? {
        return Some(UnknownResource);
      }
      var r, name := items[k.value], devices[i.value].name;
      var allowed, denied := r.allowed - {name}, r.denied - {name};
      if decision.Allow? {
        allowed := allowed + {name};
      } else if decision.Deny? {
        denied := denied + {name};
      }
      assert allowed == r.allowed - {name} + (if decision.Allow? then {name} else {});
      assert denied == r.denied - {name} + (if decision.Deny? then {name} else {});
      var ok := SaveResources(items[k.value := r.(allowed := allowed, denied := denied)]);
      error := None;
    }

    // ---------- Groups ----------

    method CreateGroup(name: string, info: string) returns (error: Option<Error>)
      requires Valid()
      modifies this
      ensures Valid() && Comes(Registry.CreateGroup(rules, old(Contents()), name, info), error, old(Contents()), Contents())
    {
      hide Integrity, UniqueDevices, GroupsSavable, NormalizedGroups, NormalizedResources, ReadResources, ResourceNames,
           DeviceIds;
      ghost var before := Contents();
      if Registry.CreateGroup(rules, before, name, info).Ok? {
        CreateGroupKeeps(rules, before, name, info);
        Savable(Registry.CreateGroup(rules, before, name, info).value);
      }
      if !rules.name(name) {
        return Some(InvalidName);
      }
      var items := ListGroups();
      if FindGroup(items, name).Some? {
        return Some(NameTaken);
      }
      var ok := SaveGroups(items + [Group(name, {}, {}, {}, true, info)]);
      error := None;
    }

    method RemoveGroup(name: string) returns (error: Option<Error>)
      requires Valid()
      modifies this
      ensures Valid() && Comes(Registry.RemoveGroup(old(Contents()), name), error, old(Contents()), Contents())
    {
      hide Integrity, UniqueDevices, GroupsSavable, NormalizedGroups, NormalizedResources, ReadResources, ResourceNames,
           DeviceIds;
      ghost var before := Contents();
      if Registry.RemoveGroup(before, name).Ok? {
        RemoveGroupKeeps(rules, before, name);
        Savable(Registry.RemoveGroup(before, name).value);
      }
      var items := ListGroups();
      if FindGroup(items, name).None? {
        return Some(UnknownGroup);
      }
      var ok := SaveGroups(WithoutGroup(items, name));
      error := None;
    }

    method SetGroupEnabled(name: string, enabled: bool) returns (error: Option<Error>)
      requires Valid()
      modifies this
      ensures Valid() && Comes(Registry.SetGroupEnabled(old(Contents()), name, enabled), error, old(Contents()), Contents())
    {
      hide Integrity, UniqueDevices, GroupsSavable, NormalizedGroups, NormalizedResources, ReadResources, ResourceNames,
           DeviceIds;
      ghost var before := Contents();
      if Registry.SetGroupEnabled(before, name, enabled).Ok? {
        ApplyKeeps(rules, before, EnablingGroup(name, enabled));
        Savable(Registry.SetGroupEnabled(before, name, enabled).value);
      }
      var items := ListGroups();
      var i := FindGroup(items, name);
      if i.None? {
        return Some(UnknownGroup);
      }
      var ok := SaveGroups(items[i.value := items[i.value].(enabled := enabled)]);
      error := None;
    }

    method SetGroupDevice(name: string, identifier: string, member: bool) returns (error: Option<Error>)
      requires Valid()
      modifies this
      ensures Valid() && Comes(Registry.SetGroupDevice(old(Contents()), name, identifier, member), error, old(Contents()), Contents())
    {
      hide Integrity, UniqueDevices, GroupsSavable, NormalizedGroups, NormalizedResources, ReadResources, ResourceNames,
           DeviceIds;
      ghost var before := Contents();
      if Registry.SetGroupDevice(before, name, identifier, member).Ok? {
        ApplyKeeps(rules, before, Assigning(name, identifier, member));
        Savable(Registry.SetGroupDevice(before, name, identifier, member).value);
      }
      var d := FindDevice(devices, identifier);
      if d.None? {
        return Some(UnknownDevice);
      }
      var items := ListGroups();
      var i := FindGroup(items, name);
      if i.None? {
        return Some(UnknownGroup);
      }
      var g, id := items[i.value], devices[d.value].id;
      g := g.(members := if member then g.members + {id} else g.members - {id});
      var ok := SaveGroups(items[i.value := g]);
      error := None;
    }

    method SetGroupResource(name: string, resource: string, granted: bool) returns (error: Option<Error>)
      requires Valid()
      modifies this
      ensures Valid() && Comes(Registry.SetGroupResource(old(Contents()), name, resource, granted), error, old(Contents()), Contents())
    {
      hide Integrity, UniqueDevices, GroupsSavable, NormalizedGroups, NormalizedResources, ReadResources, ResourceNames,
           DeviceIds;
      ghost var before := Contents();
      if Registry.SetGroupResource(before, name, resource, granted).Ok? {
        ApplyKeeps(rules, before, Granting(name, resource, granted));
        Savable(Registry.SetGroupResource(before, name, resource, granted).value);
      }
      var known := ListResources();
      if resource !in ResourceNames(known) {
        return Some(UnknownResource);
      }
      var items := ListGroups();
      var i := FindGroup(items, name);
      if i.None? {
        return Some(UnknownGroup);
      }
      var g := items[i.value];
      var permitted := if granted then g.allowedServices + {resource} else g.allowedServices - {resource};
      var ok := SaveGroups(items[i.value := g.(allowedServices := permitted, allowedResources := permitted)]);
      error := None;
    }
  }

  lemma SameIdIsNotUnique(devices: seq<Device>, d: Device)
    requires d.id in DeviceIds(devices)
    ensures !UniqueDevices(devices + [d])
  {
    var i :| 0 <= i < |devices| && devices[i].id == d.id;
    assert (devices + [d])[i] == devices[i] && (devices + [d])[|devices|] == d;
  }
}
