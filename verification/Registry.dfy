/**
 The device, resource and group registries (core.py) as values, and every operation on them. Lists that the
 program keeps sorted and free of duplicates are sets; validators that look only at text are `Rules`.
 */
module Registry {
  import opened Wrappers

  datatype Expiry = Never | On(day: int)

  /** `host` is the last byte of the VPN address 10.88.0.0/24. `info` holds the fields that no decision reads. */
  datatype Device = Device(id: string, name: string, publicKey: string, host: nat, enabled: bool, expiry: Expiry, info: string)

  /** `rest` holds target, protocol, icon, description, health URL and timeout. */
  datatype Resource = Resource(name: string, bridgePort: int, allowed: set<string>, denied: set<string>, enabled: bool,
                               unit: string, selfHeal: bool, rest: string)

  /** Groups carry the permitted resources twice, under a new and a legacy key. */
  datatype Group = Group(name: string, members: set<string>, allowedServices: set<string>, allowedResources: set<string>,
                         enabled: bool, info: string)

  datatype State = State(devices: seq<Device>, resources: seq<Resource>, groups: seq<Group>)

  const EMPTY := State([], [], [])

  /** `name` and `config` accept a name, and a service unit with the rest of a resource; `kind` accepts the device type
      among the metadata of a device, `info` the other metadata with the expiry. */
  datatype Rules = Rules(name: string -> bool, kind: string -> bool, info: (Expiry, string) -> bool,
                         config: (string, string) -> bool)

  predicate ValidInfo(rules: Rules, expiry: Expiry, info: string) {
    rules.kind(info) && rules.info(expiry, info)
  }

  datatype Error =
    | InvalidName
    | InvalidInfo
    | InvalidPort
    | ReservedPort
    | InvalidConfig
    | MissingUnit
    | NameTaken
    | PortTaken
    | UnknownDevice
    | UnknownResource
    | UnknownGroup
    | NoFreeIp
    | DuplicateId
    | Refused

  function Reserved(): set<int> {
    {8788, 8789, 8790}
  }

  // ---------- Lookup ----------

  predicate Matches(d: Device, identifier: string) {
    d.id == identifier || d.name == identifier
  }

  /** The place of the first device with that id or name. */
  function FindDevice(devices: seq<Device>, identifier: string): (r: Option<nat>)
    ensures r.Some? ==> r.value < |devices| && (devices[r.value].id == identifier || devices[r.value].name == identifier)
                        && forall j :: 0 <= j < r.value ==> devices[j].id != identifier && devices[j].name != identifier
    ensures r.None? ==> forall d <- devices :: d.id != identifier && d.name != identifier
  {
    if devices == [] then None
    else
      var last := |devices| - 1;
      match FindDevice(devices[..last], identifier)
      case Some(i) => Some(i)
      case None => if Matches(devices[last], identifier) then Some(last) else None
  }

  function FindResource(resources: seq<Resource>, name: string): (r: Option<nat>)
    ensures r.Some? ==> r.value < |resources| && resources[r.value].name == name && forall j :: 0 <= j < r.value ==> resources[j].name != name
    ensures r.None? ==> forall x <- resources :: x.name != name
  {
    if resources == [] then None
    else
      var last := |resources| - 1;
      match FindResource(resources[..last], name)
      case Some(i) => Some(i)
      case None => if resources[last].name == name then Some(last) else None
  }

  function FindGroup(groups: seq<Group>, name: string): (r: Option<nat>)
    ensures r.Some? ==> r.value < |groups| && groups[r.value].name == name && forall j :: 0 <= j < r.value ==> groups[j].name != name
    ensures r.None? ==> forall g <- groups :: g.name != name
  {
    if groups == [] then None
    else
      var last := |groups| - 1;
      match FindGroup(groups[..last], name)
      case Some(i) => Some(i)
      case None => if groups[last].name == name then Some(last) else None
  }

  function DeviceIds(devices: seq<Device>): set<string> {
    set d | d in devices :: d.id
  }

  function DeviceNames(devices: seq<Device>): set<string> {
    set d | d in devices :: d.name
  }

  function ResourceNames(resources: seq<Resource>): set<string> {
    set r | r in resources :: r.name
  }

  // ---------- Names ----------

  ghost predicate AlphaNumeric(c: char) {
    'a' <= c <= 'z' || 'A' <= c <= 'Z' || '0' <= c <= '9'
  }

  /** The names that the program accepts. */
  ghost predicate SafeName(name: string) {
    && 1 <= |name| <= 64 && AlphaNumeric(name[0])
    && forall c <- name :: AlphaNumeric(c) || c == '_' || c == '.' || c == '-'
  }

  /** The ids that the program draws: twelve hexadecimal digits behind a prefix. */
  ghost predicate DrawnId(id: string) {
    && |id| == 16 && "dev_" <= id
    && forall c <- id[4..] :: '0' <= c <= '9' || 'a' <= c <= 'f'
  }

  /** Every drawn id would be accepted as a name. */
  lemma IdsAreNames(id: string)
    requires DrawnId(id)
    ensures SafeName(id)
  {
    assert id == "dev_" + id[4..];
    assert forall c <- "dev_" :: AlphaNumeric(c) || c == '_';
  }

  // ---------- Normalization ----------

  function NormalizeResource(r: Resource): Resource {
    r.(selfHeal := r.selfHeal && r.unit != "")
  }

  /** An empty list of services falls back to the legacy list of resources. */
  function NormalizeGroup(g: Group): Group {
    var source := if g.allowedServices != {} then g.allowedServices else g.allowedResources;
    g.(members := g.members - {""}, allowedServices := source - {""}, allowedResources := source - {""})
  }

  function NormalizedResources(resources: seq<Resource>): (r: seq<Resource>)
    ensures |r| == |resources| && forall i :: 0 <= i < |r| ==> r[i] == NormalizeResource(resources[i])
  {
    if resources == [] then []
    else NormalizedResources(resources[..|resources| - 1]) + [NormalizeResource(resources[|resources| - 1])]
  }

  function NormalizedGroups(groups: seq<Group>): (r: seq<Group>)
    ensures |r| == |groups| && forall i :: 0 <= i < |r| ==> r[i] == NormalizeGroup(groups[i])
  {
    if groups == [] then []
    else NormalizedGroups(groups[..|groups| - 1]) + [NormalizeGroup(groups[|groups| - 1])]
  }

  // ---------- Integrity ----------

  predicate UniqueDevices(devices: seq<Device>) {
    forall i, j :: 0 <= i < j < |devices| ==> devices[i].id != devices[j].id && devices[i].name != devices[j].name
  }

  predicate UniqueResources(resources: seq<Resource>) {
    forall i, j :: 0 <= i < j < |resources| ==>
      resources[i].name != resources[j].name && resources[i].bridgePort != resources[j].bridgePort
  }

  predicate UniqueGroups(groups: seq<Group>) {
    forall i, j :: 0 <= i < j < |groups| ==> groups[i].name != groups[j].name
  }

  ghost predicate DistinctHosts(devices: seq<Device>) {
    forall i, j :: 0 <= i < j < |devices| ==> devices[i].host != devices[j].host
  }

  ghost predicate GoodDevice(rules: Rules, d: Device) {
    d.id != "" && rules.name(d.name) && 2 <= d.host <= 254
  }

  ghost predicate GoodResource(rules: Rules, r: Resource, names: set<string>) {
    && rules.name(r.name) && 1 <= r.bridgePort <= 65535 && r.bridgePort !in Reserved()
    && rules.config(r.unit, r.rest) && (r.selfHeal ==> r.unit != "")
    && r.allowed !! r.denied && r.allowed + r.denied <= names
  }

  ghost predicate GoodGroup(rules: Rules, g: Group, ids: set<string>, names: set<string>) {
    rules.name(g.name) && g.members <= ids && g.allowedServices <= names && g.allowedResources == g.allowedServices
  }

  ghost predicate GoodDevices(rules: Rules, devices: seq<Device>) {
    UniqueDevices(devices) && DistinctHosts(devices) && forall d <- devices :: GoodDevice(rules, d)
  }

  ghost predicate GoodResources(rules: Rules, resources: seq<Resource>, names: set<string>) {
    UniqueResources(resources) && forall r <- resources :: GoodResource(rules, r, names)
  }

  ghost predicate GoodGroups(rules: Rules, groups: seq<Group>, ids: set<string>, names: set<string>) {
    UniqueGroups(groups) && forall g <- groups :: GoodGroup(rules, g, ids, names)
  }

  ghost predicate Integrity(rules: Rules, s: State) {
    && GoodDevices(rules, s.devices)
    && GoodResources(rules, s.resources, DeviceNames(s.devices))
    && GoodGroups(rules, s.groups, DeviceIds(s.devices), ResourceNames(s.resources))
  }

  ghost predicate NamesNonEmpty(rules: Rules) {
    !rules.name("")
  }

  // ---------- Addresses ----------

  function UsedHosts(devices: seq<Device>): set<nat> {
    set d | d in devices :: d.host
  }

  /** The least free host above `host`; the server has 10.88.0.1. */
  function NextHost(used: set<nat>, host: nat): (r: Option<nat>)
    requires host <= 255
    ensures r.Some? ==> host <= r.value <= 254 && r.value !in used && forall h :: host <= h < r.value ==> h in used
    ensures r.None? ==> forall h :: host <= h <= 254 ==> h in used
    decreases 255 - host
  {
    if host == 255 then None else if host in used then NextHost(used, host + 1) else Some(host)
  }

  // ---------- Device operations ----------

  function AddDevice(rules: Rules, s: State, d: Device): Result<State, Error> {
    if !rules.name(d.name) then Err(InvalidName)
    else if d.name in DeviceNames(s.devices) then Err(NameTaken)
    else if !rules.kind(d.info) then Err(InvalidInfo)
    else
      match NextHost(UsedHosts(s.devices), 2)
      case None => Err(NoFreeIp)
      case Some(host) =>
        if !rules.info(d.expiry, d.info) then Err(InvalidInfo)
        else if d.id in DeviceIds(s.devices) then Err(DuplicateId)
        else Ok(s.(devices := s.devices + [d.(host := host)]))
  }

  function SetDeviceEnabled(s: State, identifier: string, enabled: bool): Result<State, Error> {
    match FindDevice(s.devices, identifier)
    case None => Err(UnknownDevice)
    case Some(i) => Ok(s.(devices := s.devices[i := s.devices[i].(enabled := enabled)]))
  }

  function UpdateDevice(rules: Rules, s: State, identifier: string, expiry: Expiry, info: string): Result<State, Error> {
    match FindDevice(s.devices, identifier)
    case None => Err(UnknownDevice)
    case Some(i) =>
      if !ValidInfo(rules, expiry, info) then Err(InvalidInfo)
      else Ok(s.(devices := s.devices[i := s.devices[i].(expiry := expiry, info := info)]))
  }

  function Replaced(names: set<string>, was: string, now: string): set<string> {
    if was in names then names - {was} + {now} else names
  }

  function RenamedIn(resources: seq<Resource>, was: string, now: string): (r: seq<Resource>)
    ensures |r| == |resources|
    ensures forall i :: 0 <= i < |r| ==> r[i] == resources[i].(allowed := Replaced(resources[i].allowed, was, now),
                                                               denied := Replaced(resources[i].denied, was, now))
  {
    if resources == [] then []
    else
      var r := resources[|resources| - 1];
      RenamedIn(resources[..|resources| - 1], was, now)
      + [r.(allowed := Replaced(r.allowed, was, now), denied := Replaced(r.denied, was, now))]
  }

  function RenameDevice(rules: Rules, s: State, identifier: string, name: string): Result<State, Error> {
    if !rules.name(name) then Err(InvalidName)
    else
      match FindDevice(s.devices, identifier)
      case None => Err(UnknownDevice)
      case Some(i) =>
        if s.devices[i].name == name then Ok(s)
        else if name in DeviceNames(s.devices) then Err(NameTaken)
        else Ok(s.(devices := s.devices[i := s.devices[i].(name := name)],
                   resources := RenamedIn(s.resources, s.devices[i].name, name)))
  }

  // ---------- Resource operations ----------

  function EnabledNames(devices: seq<Device>): set<string> {
    set d | d in devices && d.enabled :: d.name
  }

  /** `r` carries what the caller asks for; nobody is denied at first. */
  function RegisterResource(rules: Rules, s: State, r: Resource): Result<State, Error> {
    if !rules.name(r.name) then Err(InvalidName)
    else if !(1 <= r.bridgePort <= 65535) then Err(InvalidPort)
    else if !rules.config(r.unit, r.rest) then Err(InvalidConfig)
    else if r.selfHeal && r.unit == "" then Err(MissingUnit)
    else if r.bridgePort in Reserved() then Err(ReservedPort)
    else if r.name in ResourceNames(s.resources) then Err(NameTaken)
    else if exists x <- s.resources :: x.bridgePort == r.bridgePort then Err(PortTaken)
    else if !(r.allowed <= EnabledNames(s.devices)) then Err(UnknownDevice)
    else Ok(s.(resources := s.resources + [r.(denied := {}, enabled := true)]))
  }

  function Or<T>(change: Option<T>, was: T): T {
    if change.Some? then change.value else was
  }

  function UpdateResource(rules: Rules, s: State, name: string, port: Option<int>, unit: Option<string>, rest: Option<string>,
                          selfHeal: Option<bool>, enabled: Option<bool>): Result<State, Error> {
    match FindResource(s.resources, name)
    case None => Err(UnknownResource)
    case Some(i) =>
      var was := s.resources[i];
      var r := was.(bridgePort := Or(port, was.bridgePort), unit := Or(unit, was.unit), rest := Or(rest, was.rest),
                    selfHeal := Or(selfHeal, was.selfHeal), enabled := Or(enabled, was.enabled));
      if !(1 <= r.bridgePort <= 65535) then Err(InvalidPort)
      else if r.bridgePort in Reserved() then Err(ReservedPort)
      else if exists x <- s.resources :: x.name != name && x.bridgePort == r.bridgePort then Err(PortTaken)
      else if !rules.config(r.unit, r.rest) then Err(InvalidConfig)
      else if r.selfHeal && r.unit == "" then Err(MissingUnit)
      else Ok(s.(resources := s.resources[i := r]))
  }

  function WithoutNamed(resources: seq<Resource>, name: string): (r: seq<Resource>)
    ensures forall x :: x in r <==> x in resources && x.name != name
  {
    if resources == [] then []
    else
      WithoutNamed(resources[..|resources| - 1], name)
      + if resources[|resources| - 1].name != name then [resources[|resources| - 1]] else []
  }

  function WithoutService(groups: seq<Group>, name: string): (r: seq<Group>)
    ensures |r| == |groups|
    ensures forall i :: 0 <= i < |r| ==> r[i] == StripService(groups[i], name)
  {
    if groups == [] then []
    else WithoutService(groups[..|groups| - 1], name) + [StripService(groups[|groups| - 1], name)]
  }

  function StripService(g: Group, name: string): Group {
    if name in g.allowedServices
    then g.(allowedServices := g.allowedServices - {name}, allowedResources := g.allowedServices - {name})
    else g
  }

  function RemoveResource(s: State, name: string): Result<State, Error> {
    if name !in ResourceNames(s.resources) then Err(UnknownResource)
    else Ok(s.(resources := WithoutNamed(s.resources, name), groups := WithoutService(s.groups, name)))
  }

  datatype Decision = Allow | Deny | Inherit

  function SetAccess(s: State, resource: string, identifier: string, decision: Decision): Result<State, Error> {
    match FindDevice(s.devices, identifier)
    case None => Err(UnknownDevice)
    case Some(i) =>
      match FindResource(s.resources, resource)
      case None => Err(UnknownResource)
      case Some(k) =>
        var name, r := s.devices[i].name, s.resources[k];
        Ok(s.(resources := s.resources[k := r.(
          allowed := r.allowed - {name} + (if decision.Allow? then {name} else {}),
          denied := r.denied - {name} + (if decision.Deny? then {name} else {}))]))
  }

  // ---------- Group operations ----------

  function CreateGroup(rules: Rules, s: State, name: string, info: string): Result<State, Error> {
    if !rules.name(name) then Err(InvalidName)
    else if FindGroup(s.groups, name).Some? then Err(NameTaken)
    else Ok(s.(groups := s.groups + [Group(name, {}, {}, {}, true, info)]))
  }

  function WithoutGroup(groups: seq<Group>, name: string): (r: seq<Group>)
    ensures forall g :: g in r <==> g in groups && g.name != name
  {
    if groups == [] then []
    else WithoutGroup(groups[..|groups| - 1], name) + if groups[|groups| - 1].name != name then [groups[|groups| - 1]] else []
  }

  function RemoveGroup(s: State, name: string): Result<State, Error> {
    if FindGroup(s.groups, name).None? then Err(UnknownGroup) else Ok(s.(groups := WithoutGroup(s.groups, name)))
  }

  function SetGroupEnabled(s: State, name: string, enabled: bool): Result<State, Error> {
    match FindGroup(s.groups, name)
    case None => Err(UnknownGroup)
    case Some(i) => Ok(s.(groups := s.groups[i := s.groups[i].(enabled := enabled)]))
  }

  function SetGroupDevice(s: State, name: string, identifier: string, member: bool): Result<State, Error> {
    match FindDevice(s.devices, identifier)
    case None => Err(UnknownDevice)
    case Some(d) =>
      match FindGroup(s.groups, name)
      case None => Err(UnknownGroup)
      case Some(i) =>
        var id, g := s.devices[d].id, s.groups[i];
        Ok(s.(groups := s.groups[i := g.(members := if member then g.members + {id} else g.members - {id})]))
  }

  function SetGroupResource(s: State, name: string, resource: string, granted: bool): Result<State, Error> {
    if resource !in ResourceNames(s.resources) then Err(UnknownResource)
    else
      match FindGroup(s.groups, name)
      case None => Err(UnknownGroup)
      case Some(i) =>
        var g := s.groups[i];
        var services := if granted then g.allowedServices + {resource} else g.allowedServices - {resource};
        Ok(s.(groups := s.groups[i := g.(allowedServices := services, allowedResources := services)]))
  }

  // ---------- Runs ----------

  datatype Operation =
    | AddingDevice(device: Device)
    | EnablingDevice(identifier: string, enabled: bool)
    | UpdatingDevice(identifier: string, expiry: Expiry, info: string)
    | RenamingDevice(identifier: string, name: string)
    | Registering(resource: Resource)
    | Updating(name: string, port: Option<int>, unit: Option<string>, rest: Option<string>,
               selfHeal: Option<bool>, setEnabled: Option<bool>)
    | Removing(name: string)
    | Overriding(name: string, identifier: string, decision: Decision)
    | CreatingGroup(name: string, info: string)
    | RemovingGroup(name: string)
    | EnablingGroup(name: string, enabled: bool)
    | Assigning(name: string, identifier: string, member: bool)
    | Granting(name: string, resourceName: string, granted: bool)

  function Apply(rules: Rules, s: State, op: Operation): Result<State, Error> {
    match op
    case AddingDevice(d) => if d.id == "" then Err(Refused) else AddDevice(rules, s, d)
    case EnablingDevice(identifier, enabled) => SetDeviceEnabled(s, identifier, enabled)
    case UpdatingDevice(identifier, expiry, info) => UpdateDevice(rules, s, identifier, expiry, info)
    case RenamingDevice(identifier, name) => RenameDevice(rules, s, identifier, name)
    case Registering(r) => RegisterResource(rules, s, r)
    case Updating(name, port, unit, rest, selfHeal, enabled) =>
      UpdateResource(rules, s, name, port, unit, rest, selfHeal, enabled)
    case Removing(name) => RemoveResource(s, name)
    case Overriding(name, identifier, decision) => SetAccess(s, name, identifier, decision)
    case CreatingGroup(name, info) => CreateGroup(rules, s, name, info)
    case RemovingGroup(name) => RemoveGroup(s, name)
    case EnablingGroup(name, enabled) => SetGroupEnabled(s, name, enabled)
    case Assigning(name, identifier, member) => SetGroupDevice(s, name, identifier, member)
    case Granting(name, resource, granted) => SetGroupResource(s, name, resource, granted)
  }

  /** The registries after completed operations, from empty ones; a refused operation changes nothing. */
  function After(rules: Rules, ops: seq<Operation>): State {
    if ops == [] then EMPTY
    else
      var s := After(rules, ops[..|ops| - 1]);
      match Apply(rules, s, ops[|ops| - 1])
      case Ok(t) => t
      case Err(_) => s
  }
}
