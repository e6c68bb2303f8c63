/**
 Single-use enrollments (pairing.py: `cleanup_enrollments`, `create_enrollment`, `consume_enrollment`). The
 registries are a value of type Registry.State. Token digests, key checks and random ids come from outside.
 */
module Pairing {
  import opened Wrappers
  import opened Registry
  import opened RegistryIntegrity
  import opened Access

  const USED_RETENTION_SECONDS: int := 604800
  const MIN_TTL_SECONDS: int := 60
  const MAX_TTL_SECONDS: int := 86400

  datatype Status = Pending | Used | Expired

  /** `usedAt` and `expiredAt` are 0 and `device` is empty while they are absent. */
  datatype Record = Record(id: string, name: string, tokenHash: string, groups: set<string>, expiresAt: int,
                           status: Status, usedAt: int, expiredAt: int, device: string, expiry: Expiry, info: string)

  datatype EnrollError =
    | BadName
    | BadInfo
    | BadTtl
    | UnknownGroups
    | DeviceExists
    | AlreadyPending
    | BadKey
    | NotValid
    | NotPending
    | GroupMissing
    | NoKey
    | NoAddress
    | SaveFailed

  // ---------- Cleaning up ----------

  function Aged(r: Record, now: int): Record {
    if r.status.Pending? && r.expiresAt <= now then r.(status := Expired, expiredAt := now) else r
  }

  predicate Purged(r: Record, now: int) {
    var terminalAt := if r.usedAt != 0 then r.usedAt else r.expiredAt;
    !r.status.Pending? && terminalAt != 0 && now - terminalAt > USED_RETENTION_SECONDS
  }

  function Cleaned(records: seq<Record>, now: int): seq<Record> {
    if records == [] then []
    else
      var r := Aged(records[|records| - 1], now);
      Cleaned(records[..|records| - 1], now) + if Purged(r, now) then [] else [r]
  }

  method CleanupEnrollments(records: seq<Record>, now: int) returns (out: seq<Record>)
    ensures out == Cleaned(records, now)
  {
    out := [];
    for i := 0 to |records|
      invariant out == Cleaned(records[..i], now)
    {
      assert records[..i + 1][..i] == records[..i];
      var record := records[i];
      if record.status.Pending? && record.expiresAt <= now {
        record := record.(status := Expired, expiredAt := now);
      }
      if Purged(record, now) {
        continue;
      }
      out := out + [record];
    }
    assert records[..|records|] == records;
  }

  ghost predicate UniqueIds(records: seq<Record>) {
    forall i, j :: 0 <= i < j < |records| ==> records[i].id != records[j].id
  }

  /** Nobody waits twice for the same device name. */
  ghost predicate UniquePending(records: seq<Record>) {
    forall i, j :: 0 <= i < j < |records| && records[i].status.Pending? && records[j].status.Pending? ==>
      records[i].name != records[j].name
  }

  /** What stays is what was there, aged; a record is purged only a week after it was used or expired. */
  lemma {:induction false} CleanedMembers(records: seq<Record>, now: int)
    ensures forall r :: r in Cleaned(records, now) <==> exists q <- records :: Aged(q, now) == r && !Purged(r, now)
  {
    hide Aged, Purged;
    if records != [] {
      var init, last := records[..|records| - 1], records[|records| - 1];
      CleanedMembers(init, now);
      assert records == init + [last] && last in records;
      assert forall q <- init :: q in records;
    }
  }

  /** What a cleanup leaves of a record: a pending one that is over becomes expired, and one that was used or has expired
      stays for a week. */
  ghost predicate Left(q: Record, r: Record, now: int) {
    if q.status.Pending? && now < q.expiresAt then r == q
    else
      && r == (if q.status.Pending? then q.(status := Expired, expiredAt := now) else q)
      && (r.usedAt != 0 ==> now <= r.usedAt + 604800)
      && (r.usedAt == 0 && r.expiredAt != 0 ==> now <= r.expiredAt + 604800)
  }

  lemma LeftMeans(q: Record, r: Record, now: int)
    ensures Left(q, r, now) <==> r == Aged(q, now) && !Purged(r, now)
  {
  }

  /** The cleaned list holds exactly what is left of the records, and keeps their order. */
  lemma CleanedMeans(records: seq<Record>, now: int, k: nat)
    requires k <= |records|
    ensures forall r :: r in Cleaned(records, now) <==> exists q <- records :: Left(q, r, now)
    ensures Cleaned(records[..k], now) <= Cleaned(records, now)
  {
    hide Cleaned, Aged, Purged, Left;
    CleanedMembers(records, now);
    CleanedInOrder(records, now, k);
    forall q: Record, r: Record ensures Left(q, r, now) <==> r == Aged(q, now) && !Purged(r, now) {
      LeftMeans(q, r, now);
    }
  }

  lemma {:induction false} CleanedInOrder(records: seq<Record>, now: int, k: nat)
    requires k <= |records|
    ensures Cleaned(records[..k], now) <= Cleaned(records, now)
  {
    hide Aged, Purged;
    if k < |records| {
      assert records[..|records| - 1][..k] == records[..k];
      CleanedInOrder(records[..|records| - 1], now, k);
    } else {
      assert records[..k] == records;
    }
  }

  lemma CleanedOrigin(records: seq<Record>, now: int, r: Record) returns (i: nat)
    requires r in Cleaned(records, now)
    ensures i < |records| && Aged(records[i], now) == r
  {
    hide Cleaned;
    CleanedMembers(records, now);
    var q :| q in records && Aged(q, now) == r && !Purged(r, now);
    i :| 0 <= i < |records| && records[i] == q;
  }

  lemma {:induction false} CleanedIds(records: seq<Record>, now: int)
    requires UniqueIds(records)
    ensures UniqueIds(Cleaned(records, now))
  {
    hide Purged;
    if records != [] {
      var init := records[..|records| - 1];
      CleanedIds(init, now);
      forall r <- Cleaned(init, now) ensures r.id != records[|init|].id {
        var i := CleanedOrigin(init, now, r);
      }
    }
  }

  lemma {:induction false} CleanedPending(records: seq<Record>, now: int)
    requires UniquePending(records)
    ensures UniquePending(Cleaned(records, now))
  {
    hide Purged;
    if records != [] {
      var init, last := records[..|records| - 1], records[|records| - 1];
      CleanedPending(init, now);
      forall r <- Cleaned(init, now) | r.status.Pending? && last.status.Pending? ensures r.name != last.name {
        var i := CleanedOrigin(init, now, r);
        assert records[i] == init[i];
      }
    }
  }

  /** A record that is still pending has not changed and is not over. */
  lemma CleanedRecord(records: seq<Record>, now: int, r: Record)
    requires r in Cleaned(records, now)
    ensures exists q <- records :: q.id == r.id && q.name == r.name && q.expiry == r.expiry && q.info == r.info
              && (r.status.Pending? ==> q == r && r.expiresAt > now)
  {
    hide Cleaned;
    var i := CleanedOrigin(records, now, r);
    assert records[i] in records;
  }

  function FindRecord(records: seq<Record>, id: string): (r: Option<nat>)
    ensures r.Some? ==> r.value < |records| && records[r.value].id == id
    ensures r.None? ==> forall x <- records :: x.id != id
  {
    if records == [] then None
    else
      match FindRecord(records[..|records| - 1], id)
      case Some(i) => Some(i)
      case None => if records[|records| - 1].id == id then Some(|records| - 1) else None
  }

  // ---------- Groups of the new device ----------

  function Joined(groups: seq<Group>, names: set<string>, id: string): (r: seq<Group>)
    ensures |r| == |groups|
    ensures forall i :: 0 <= i < |r| ==>
              r[i] == if groups[i].name in names then groups[i].(members := groups[i].members + {id}) else groups[i]
  {
    if groups == [] then []
    else
      var g := groups[|groups| - 1];
      Joined(groups[..|groups| - 1], names, id) + [if g.name in names then g.(members := g.members + {id}) else g]
  }

  method JoinGroups(groups: seq<Group>, names: set<string>, id: string) returns (out: seq<Group>)
    ensures out == Joined(groups, names, id)
  {
    out := [];
    for i := 0 to |groups|
      invariant out == Joined(groups[..i], names, id)
    {
      assert groups[..i + 1][..i] == groups[..i];
      var g := groups[i];
      if g.name in names {
        g := g.(members := g.members + {id});
      }
      out := out + [g];
    }
    assert groups[..|groups|] == groups;
  }

  /** The registries after a device was added and put in its groups. */
  function Enrolled(s: State, d: Device, names: set<string>): State {
    s.(devices := s.devices + [d], groups := Joined(s.groups, names, d.id))
  }

  lemma EnrolledKeeps(rules: Rules, s: State, d: Device, names: set<string>)
    requires Integrity(rules, s) && d.id != "" && d.id !in DeviceIds(s.devices) && d.name !in DeviceNames(s.devices)
    requires rules.name(d.name) && ValidInfo(rules, d.expiry, d.info)
    requires NextHost(UsedHosts(s.devices), 2) == Some(d.host)
    ensures Integrity(rules, Enrolled(s, d, names))
  {
    hide GoodDevices, GoodResources, ResourceNames, UsedHosts;
    assert AddDevice(rules, s, d) == Ok(s.(devices := s.devices + [d]));
    AddDeviceKeeps(rules, s, d);
    var t := Enrolled(s, d, names);
    assert d in t.devices;
    forall i | 0 <= i < |t.groups| ensures GoodGroup(rules, t.groups[i], DeviceIds(t.devices), ResourceNames(t.resources)) {
      assert s.groups[i] in s.groups;
      assert GoodGroup(rules, s.groups[i], DeviceIds(t.devices), ResourceNames(s.resources));
    }
  }

  /** A newly enrolled device can use exactly what the enabled groups of its enrollment permit. */
  lemma EnrolledAccess(rules: Rules, s: State, d: Device, names: set<string>, r: Resource, today: int)
    requires Integrity(rules, s) && d.id !in DeviceIds(s.devices) && d.name !in DeviceNames(s.devices) && r in s.resources
    ensures Allows(r, d, Enrolled(s, d, names).groups, today)
            <==> d.enabled && (d.expiry.Never? || today <= d.expiry.day) && exists g <- s.groups :: g.enabled && g.name in names && r.name in g.allowedServices
  {
    hide GoodDevices, UniqueResources, UniqueGroups;
    var groups := Enrolled(s, d, names).groups;
    assert GoodResource(rules, r, DeviceNames(s.devices));
    forall i | 0 <= i < |groups| ensures d.id in groups[i].members <==> groups[i].name in names {
      assert GoodGroup(rules, s.groups[i], DeviceIds(s.devices), ResourceNames(s.resources));
    }
    if g :| g in s.groups && g.enabled && g.name in names && r.name in g.allowedServices {
      var i :| 0 <= i < |s.groups| && s.groups[i] == g;
      assert groups[i] in groups;
    }
  }

  // ---------- Enrollments ----------

  datatype Made = Made(enrollment: string, device: string)

  /** Where a request is cut short: drawing the key, or saving the groups, fails; or the process stops between the
      save of the devices and that of the groups, or between that and the save of the records. */
  datatype Fault = NoFault | KeyFails | SaveFails | StopsEarly | StopsLate

  datatype Outcome = Success(device: Device) | Denied(error: EnrollError) | Crashed(stranded: Device)

  /** The registries and the file of enrollments. */
  datatype Books = Books(state: State, records: seq<Record>)

  datatype Checks = Checks(digest: string -> string, key: string -> Option<string>)

  datatype Request = Request(id: string, token: string, publicKey: string)

  /** What a request comes to. */
  function Consumed(checks: Checks, b: Books, q: Request, newId: string, now: int, fault: Fault): (Outcome, Books) {
    match checks.key(q.publicKey)
    case None => (Denied(BadKey), b)
    case Some(key) =>
      var items := Cleaned(b.records, now);
      match FindRecord(items, q.id)
      case None => (Denied(NotValid), b.(records := items))
      case Some(k) =>
        var r := items[k];
        if !r.status.Pending? then (Denied(NotPending), b.(records := items))
        else if r.tokenHash != checks.digest(q.token) then (Denied(NotValid), b.(records := items))
        else if FindDevice(b.state.devices, r.name).Some? then
          (Denied(NotPending), b.(records := items[k := r.(status := Used, usedAt := now)]))
        else Admitted(b, items, k, key, newId, now, fault)
  }

  function Admitted(b: Books, items: seq<Record>, k: nat, key: string, newId: string, now: int, fault: Fault): (Outcome, Books)
    requires k < |items|
  {
    var r := items[k];
    if exists g <- r.groups :: FindGroup(b.state.groups, g).None? then (Denied(GroupMissing), b)
    else if fault.KeyFails? then (Denied(NoKey), b)
    else
      match NextHost(UsedHosts(b.state.devices), 2)
      case None => (Denied(NoAddress), b)
      case Some(host) =>
        var d := Device(newId, r.name, key, host, true, r.expiry, r.info);
        if newId in DeviceIds(b.state.devices) then (Denied(SaveFailed), b)
        else if fault.StopsEarly? then (Crashed(d), b.(state := b.state.(devices := b.state.devices + [d])))
        else if r.groups != {} && fault.SaveFails? then (Denied(SaveFailed), b)
        else if fault.StopsLate? then (Crashed(d), b.(state := Enrolled(b.state, d, r.groups)))
        else (Success(d), Books(Enrolled(b.state, d, r.groups), items[k := r.(status := Used, usedAt := now, device := newId)]))
  }

  /** Whether the registries can take the device of a record. */
  predicate Takes(s: State, r: Record) {
    && FindDevice(s.devices, r.name) == None && NextHost(UsedHosts(s.devices), 2).Some?
    && forall g <- r.groups :: FindGroup(s.groups, g).Some?
  }

  predicate Matching(checks: Checks, q: Request, now: int, r: Record) {
    && r.id == q.id && r.status.Pending? && r.expiresAt > now && r.tokenHash == checks.digest(q.token)
    && checks.key(q.publicKey).Some?
  }

  /** The new device has the name of the record, which no device answers to, the key of the request and the first
      free address. */
  predicate Fits(checks: Checks, s: State, q: Request, d: Device, r: Record, newId: string) {
    && d.id == newId && d.id !in DeviceIds(s.devices) && d.name == r.name && Takes(s, r)
    && checks.key(q.publicKey) == Some(d.publicKey) && NextHost(UsedHosts(s.devices), 2) == Some(d.host)
    && d.enabled && d.expiry == r.expiry && d.info == r.info
  }

  /** Ids being unique, a request for a record finds that record as the cleanup left it. */
  lemma FoundIsAged(records: seq<Record>, now: int, r: Record)
    requires UniqueIds(records) && r in records
    ensures var k := FindRecord(Cleaned(records, now), r.id);
            && (k.Some? ==> Cleaned(records, now)[k.value] == Aged(r, now))
            && (k.None? ==> Purged(Aged(r, now), now))
  {
    hide Aged, Purged, Cleaned;
    var items := Cleaned(records, now);
    CleanedMembers(records, now);
    AgedId(r, now);
    var k := FindRecord(items, r.id);
    if k.Some? {
      var i := CleanedOrigin(records, now, items[k.value]);
      AgedId(records[i], now);
      var j :| 0 <= j < |records| && records[j] == r;
    }
  }

  lemma AgedId(r: Record, now: int)
    ensures Aged(r, now).id == r.id && (r.status.Pending? && r.expiresAt > now ==> Aged(r, now) == r && !Purged(r, now))
    ensures Aged(r, now).status.Pending? ==> Aged(r, now) == r && r.expiresAt > now
  {
  }

  /** A request succeeds exactly if it matches its record, the registries take the device, the drawn id is new and
      nothing cuts it short; then it adds that device, puts it in the groups of the record and ends the record. */
  lemma SuccessMeans(checks: Checks, b: Books, q: Request, newId: string, now: int, fault: Fault, r: Record)
    requires UniqueIds(b.records) && r in b.records && r.id == q.id
    ensures var (outcome, c) := Consumed(checks, b, q, newId, now, fault);
            && (outcome.Success? <==>
                  && Matching(checks, q, now, r) && Takes(b.state, r) && newId !in DeviceIds(b.state.devices)
                  && (fault.NoFault? || (fault.SaveFails? && r.groups == {})))
            && (outcome.Success? ==>
                  && Fits(checks, b.state, q, outcome.device, r, newId) && c.state == Enrolled(b.state, outcome.device, r.groups)
                  && exists k :: 0 <= k < |Cleaned(b.records, now)| && Cleaned(b.records, now)[k] == r
                       && c.records == Cleaned(b.records, now)[k := r.(status := Used, usedAt := now, device := newId)])
  {
    hide Cleaned, FindDevice, FindGroup, NextHost, UsedHosts, DeviceIds, Enrolled, UniqueIds, Aged, Purged;
    FoundIsAged(b.records, now, r);
    AgedId(r, now);
  }

  /** A crash leaves the device behind, with or without its groups, and the file of enrollments as it was. */
  lemma CrashMeans(checks: Checks, b: Books, q: Request, newId: string, now: int, fault: Fault, r: Record)
    requires UniqueIds(b.records) && r in b.records && r.id == q.id
    ensures var (outcome, c) := Consumed(checks, b, q, newId, now, fault);
            && (outcome.Crashed? <==>
                  && Matching(checks, q, now, r) && Takes(b.state, r) && newId !in DeviceIds(b.state.devices)
                  && (fault.StopsEarly? || fault.StopsLate?))
            && (outcome.Crashed? ==>
                  && Fits(checks, b.state, q, outcome.stranded, r, newId) && c.records == b.records
                  && c.state == if fault.StopsEarly? then b.state.(devices := b.state.devices + [outcome.stranded])
                                else Enrolled(b.state, outcome.stranded, r.groups))
  {
    hide Cleaned, FindDevice, FindGroup, NextHost, UsedHosts, DeviceIds, Enrolled, UniqueIds, Aged, Purged;
    FoundIsAged(b.records, now, r);
    AgedId(r, now);
  }

  /** A refusal leaves the registries alone; a missing group, key or address, or a failed save, leaves the file of
      enrollments alone too. Otherwise that file is cleaned, and a record whose name is taken is ended. */
  lemma DenialLeaves(checks: Checks, b: Books, q: Request, newId: string, now: int, fault: Fault)
    ensures var (outcome, c) := Consumed(checks, b, q, newId, now, fault);
            outcome.Denied? ==>
              && c.state == b.state
              && (outcome.error in {BadKey, GroupMissing, NoKey, NoAddress, SaveFailed} ==> c.records == b.records)
              && (outcome.error == NotValid ==> c.records == Cleaned(b.records, now))
              && (outcome.error == NotPending ==>
                    c.records == Cleaned(b.records, now)
                    || exists k :: 0 <= k < |Cleaned(b.records, now)| && FindDevice(b.state.devices, Cleaned(b.records, now)[k].name).Some?
                         && c.records == Cleaned(b.records, now)[k := Cleaned(b.records, now)[k].(status := Used, usedAt := now)])
  {
    hide Cleaned, FindDevice, FindGroup, NextHost, UsedHosts, DeviceIds, Enrolled;
  }

  /** The cause of each refusal of a request for a record, and that a record whose name is taken is ended by it. */
  lemma DenialMeans(checks: Checks, b: Books, q: Request, newId: string, now: int, fault: Fault, r: Record)
    requires UniqueIds(b.records) && r in b.records && r.id == q.id
    ensures var (outcome, c) := Consumed(checks, b, q, newId, now, fault);
            var known, waits, left := checks.key(q.publicKey).Some?, r.status.Pending? && now < r.expiresAt, exists x :: Left(r, x, now);
            var right, taken := r.tokenHash == checks.digest(q.token), FindDevice(b.state.devices, r.name).Some?;
            var grouped, addressed := forall g <- r.groups :: FindGroup(b.state.groups, g).Some?, NextHost(UsedHosts(b.state.devices), 2).Some?;
            && (outcome == Denied(BadKey) <==> !known)
            && (outcome == Denied(NotValid) <==> known && if waits then !right else !left)
            && (outcome == Denied(NotPending) <==> known && if waits then right && taken else left)
            && (outcome == Denied(GroupMissing) <==> known && waits && right && !taken && !grouped)
            && (outcome == Denied(NoKey) <==> known && waits && right && !taken && grouped && fault.KeyFails?)
            && (outcome == Denied(NoAddress) <==> known && waits && right && !taken && grouped && !fault.KeyFails? && !addressed)
            && (outcome == Denied(SaveFailed) <==>
                  known && waits && right && !taken && grouped && !fault.KeyFails? && addressed
                  && (newId in DeviceIds(b.state.devices) || (r.groups != {} && fault.SaveFails?)))
            && (known && waits && right && taken ==>
                  exists k :: 0 <= k < |Cleaned(b.records, now)| && Cleaned(b.records, now)[k] == r
                    && c.records == Cleaned(b.records, now)[k := r.(status := Used, usedAt := now)])
  {
    hide Cleaned, FindDevice, FindGroup, NextHost, UsedHosts, DeviceIds, Enrolled, UniqueIds, Aged, Purged, Left;
    FoundIsAged(b.records, now, r);
    AgedId(r, now);
    LeftOf(b.records, now, r);
  }

  lemma LeftOf(records: seq<Record>, now: int, r: Record)
    requires UniqueIds(records) && r in records
    ensures (exists x :: Left(r, x, now)) <==> FindRecord(Cleaned(records, now), r.id).Some?
    ensures r.status.Pending? && now < r.expiresAt ==> exists x :: Left(r, x, now)
  {
    hide Cleaned, Aged, Purged, UniqueIds;
    FoundIsAged(records, now, r);
    AgedId(r, now);
    CleanedMembers(records, now);
    forall x: Record ensures Left(r, x, now) <==> x == Aged(r, now) && !Purged(x, now) {
      LeftMeans(r, x, now);
    }
    hide Left;
    if !Purged(Aged(r, now), now) {
      assert Aged(r, now) in Cleaned(records, now);
    }
    assert r.status.Pending? && now < r.expiresAt ==> Left(r, r, now);
    assert !Purged(Aged(r, now), now) ==> Left(r, Aged(r, now), now);
    var k := FindRecord(Cleaned(records, now), r.id);
    if k.Some? {
      PurgedIsGone(records, now, Cleaned(records, now)[k.value]);
    }
  }

  lemma PurgedIsGone(records: seq<Record>, now: int, r: Record)
    requires r in Cleaned(records, now)
    ensures !Purged(r, now)
  {
    hide Cleaned, Aged, Purged;
    CleanedMembers(records, now);
  }

  /** A request for an unknown id. */
  lemma UnknownIsDenied(checks: Checks, b: Books, q: Request, newId: string, now: int, fault: Fault)
    requires forall r <- b.records :: r.id != q.id
    ensures Consumed(checks, b, q, newId, now, fault).0 == Denied(if checks.key(q.publicKey).None? then BadKey else NotValid)
  {
    hide Cleaned, Purged;
    var k := FindRecord(Cleaned(b.records, now), q.id);
    if k.Some? {
      var i := CleanedOrigin(b.records, now, Cleaned(b.records, now)[k.value]);
    }
  }

  ghost predicate MadeOf(made: seq<Made>, id: string) {
    exists m <- made :: m.enrollment == id
  }

  lemma AppendedIds(records: seq<Record>, r: Record)
    requires UniqueIds(records) && forall x <- records :: x.id != r.id
    ensures UniqueIds(records + [r])
  {
  }

  /** Records have ids that were given out and valid names; a pending one has created nothing, unless a crash cut it off. */
  ghost predicate Tracks(records: seq<Record>, rules: Rules, issued: set<string>, made: seq<Made>, stranded: set<string>) {
    && UniqueIds(records) && UniquePending(records)
    && (forall r <- records :: r.id in issued && rules.name(r.name) && ValidInfo(rules, r.expiry, r.info))
    && forall r <- records :: r.status.Pending? && r.id !in stranded ==> !MadeOf(made, r.id)
  }

  /** No enrollment creates two devices, unless a crash cut it off. */
  ghost predicate Creations(made: seq<Made>, issued: set<string>, stranded: set<string>, devices: seq<Device>) {
    && (forall m <- made :: m.enrollment in issued && m.device in DeviceIds(devices))
    && forall i, j :: 0 <= i < j < |made| && made[i].enrollment == made[j].enrollment ==> made[i].enrollment in stranded
  }

  lemma CleanedTracks(records: seq<Record>, rules: Rules, issued: set<string>, made: seq<Made>, stranded: set<string>, now: int)
    requires Tracks(records, rules, issued, made, stranded)
    ensures Tracks(Cleaned(records, now), rules, issued, made, stranded)
  {
    hide UniqueIds, UniquePending, Cleaned, MadeOf;
    CleanedIds(records, now);
    CleanedPending(records, now);
    forall r <- Cleaned(records, now)
      ensures r.id in issued && rules.name(r.name) && ValidInfo(rules, r.expiry, r.info) && (r.status.Pending? && r.id !in stranded ==> !MadeOf(made, r.id))
    {
      CleanedRecord(records, now, r);
    }
  }

  /** Ending a record keeps the invariant, also when its device is counted at the same time. */
  lemma EndedTracks(records: seq<Record>, rules: Rules, issued: set<string>, made: seq<Made>, stranded: set<string>,
                    k: nat, r: Record, m: Made)
    requires Tracks(records, rules, issued, made, stranded) && k < |records| && m.enrollment == r.id
    requires r.id == records[k].id && r.name == records[k].name && !r.status.Pending?
    requires r.expiry == records[k].expiry && r.info == records[k].info
    ensures Tracks(records[k := r], rules, issued, made, stranded)
    ensures Tracks(records[k := r], rules, issued, made + [m], stranded)
  {
  }

  lemma AddedTracks(records: seq<Record>, rules: Rules, issued: set<string>, made: seq<Made>, stranded: set<string>, r: Record)
    requires Tracks(records, rules, issued, made, stranded) && r.id !in issued
    requires rules.name(r.name) && ValidInfo(rules, r.expiry, r.info) && !MadeOf(made, r.id)
    requires forall x <- records :: !(x.status.Pending? && x.name == r.name)
    ensures Tracks(records + [r], rules, issued + {r.id}, made, stranded)
  {
    hide MadeOf;
    AppendedIds(records, r);
    assert forall i | 0 <= i < |records| :: records[i] in records;
  }

  lemma StrandedTracks(records: seq<Record>, rules: Rules, issued: set<string>, made: seq<Made>, stranded: set<string>, m: Made)
    requires Tracks(records, rules, issued, made, stranded)
    ensures Tracks(records, rules, issued, made + [m], stranded + {m.enrollment})
  {
  }

  lemma CreationCounts(made: seq<Made>, issued: set<string>, stranded: set<string>, devices: seq<Device>, d: Device, id: string)
    requires Creations(made, issued, stranded, devices) && id in issued
    requires id !in stranded ==> !MadeOf(made, id)
    ensures Creations(made + [Made(id, d.id)], issued, stranded, devices + [d])
    ensures Creations(made + [Made(id, d.id)], issued, stranded + {id}, devices + [d])
  {
  }

  lemma TracksRecord(records: seq<Record>, rules: Rules, issued: set<string>, made: seq<Made>, stranded: set<string>, k: nat)
    requires Tracks(records, rules, issued, made, stranded) && k < |records|
    ensures var r := records[k];
            && r.id in issued && rules.name(r.name) && ValidInfo(rules, r.expiry, r.info)
            && (r.status.Pending? && r.id !in stranded ==> !MadeOf(made, r.id))
  {
    hide UniqueIds, UniquePending, MadeOf;
    assert records[k] in records;
  }

  lemma JoinedNone(groups: seq<Group>, id: string)
    ensures Joined(groups, {}, id) == groups
  {
  }

  lemma Unmatched(devices: seq<Device>, name: string)
    requires FindDevice(devices, name) == None
    ensures name !in DeviceNames(devices)
  {
  }

  class Enrollments {
    var state: State
    var records: seq<Record>
    const rules: Rules
    const checks: Checks

    /** Ids given out, devices created, and enrollments whose completion was cut off by a crash. */
    ghost var issued: set<string>
    ghost var made: seq<Made>
    ghost var stranded: set<string>

    ghost predicate Valid()
      reads this
    {
      && Integrity(rules, state)
      && Tracks(records, rules, issued, made, stranded)
      && Creations(made, issued, stranded, state.devices)
    }

    constructor (rules: Rules, checks: Checks)
      ensures Valid() && state == EMPTY && records == [] && made == [] && issued == {} && stranded == {}
      ensures this.rules == rules && this.checks == checks
    {
      this.rules, this.checks := rules, checks;
      state, records, issued, made, stranded := EMPTY, [], {}, [], {};
      new;
      EmptyIsGood(rules);
    }

    method CreateEnrollment(name: string, groups: set<string>, ttl: int, token: string, id: string,
                            expiry: Expiry, info: string, now: int) returns (r: Result<Record, EnrollError>)
      requires Valid() && id !in issued
      modifies this
      ensures Valid() && state == old(state) && made == old(made) && stranded == old(stranded)
      ensures r.Err? ==> records == old(records) && issued == old(issued)
      ensures r == Err(BadName) ==> !rules.name(name)
      ensures r == Err(BadInfo) ==> !(rules.kind(info) && rules.info(expiry, info))
      ensures r == Err(BadTtl) ==> ttl < 60 || ttl > 86400
      ensures r == Err(UnknownGroups) ==> exists g <- groups :: FindGroup(state.groups, g).None?
      ensures r == Err(DeviceExists) ==> FindDevice(state.devices, name).Some?
      ensures r == Err(AlreadyPending) ==> exists x <- Cleaned(old(records), now) :: x.status.Pending? && x.name == name
      ensures r.Ok? || r.error in {BadName, BadInfo, BadTtl, UnknownGroups, DeviceExists, AlreadyPending}
      ensures r.Ok? <==> && rules.name(name) && rules.kind(info) && rules.info(expiry, info) && 60 <= ttl <= 86400
                         && (forall g <- groups :: FindGroup(state.groups, g).Some?)
                         && FindDevice(state.devices, name).None?
                         && forall x <- Cleaned(old(records), now) :: !(x.status.Pending? && x.name == name)
      ensures r.Ok? ==> && records == Cleaned(old(records), now) + [r.value] && issued == old(issued) + {id}
                        && r.value == Record(id, name, checks.digest(token), groups, now + ttl, Pending, 0, 0, "", expiry, info)
    {
      hide UniqueIds, Cleaned, Integrity, FindGroup, FindDevice, Tracks;
      if !rules.name(name) {
        return Err(BadName);
      }
      if !ValidInfo(rules, expiry, info) {
        return Err(BadInfo);
      }
      if !(MIN_TTL_SECONDS <= ttl <= MAX_TTL_SECONDS) {
        return Err(BadTtl);
      }
      if exists g <- groups :: FindGroup(state.groups, g).None? {
        return Err(UnknownGroups);
      }
      if FindDevice(state.devices, name).Some? {
        return Err(DeviceExists);
      }
      CleanedTracks(records, rules, issued, made, stranded, now);
      var items := CleanupEnrollments(records, now);
      if exists x <- items :: x.status.Pending? && x.name == name {
        return Err(AlreadyPending);
      }
      var record := Record(id, name, checks.digest(token), groups, now + ttl, Pending, 0, 0, "", expiry, info);
      AddedTracks(items, rules, issued, made, stranded, record);
      records := items + [record];
      issued := issued + {id};
      r := Ok(record);
    }

    /** A request uses up the pending record that it matches. `newId` is random. */
    method ConsumeEnrollment(q: Request, newId: string, now: int, fault: Fault) returns (outcome: Outcome)
      requires Valid() && newId != ""
      modifies this
      ensures Valid() && issued == old(issued)
      ensures (outcome, Books(state, records)) == Consumed(checks, Books(old(state), old(records)), q, newId, now, fault)
      ensures made == old(made) + if outcome.Denied? then [] else [Made(q.id, newId)]
      ensures stranded == old(stranded) + if outcome.Crashed? then {q.id} else {}
    {
      hide UniqueIds, UniquePending, Cleaned, Integrity, FindGroup, FindDevice, UsedHosts, NextHost, DeviceIds, Enrolled, Creations,
           MadeOf, Admitted;
      var newKey := checks.key(q.publicKey);
      if newKey.None? {
        return Denied(BadKey);
      }
      CleanedTracks(records, rules, issued, made, stranded, now);
      var items := CleanupEnrollments(records, now);
      var k := FindRecord(items, q.id);
      if k.None? {
        records := items;
        return Denied(NotValid);
      }
      var record := items[k.value];
      if !record.status.Pending? {
        records := items;
        return Denied(NotPending);
      }
      if record.tokenHash != checks.digest(q.token) {
        records := items;
        return Denied(NotValid);
      }
      CleanedRecord(records, now, record);
      assert record.expiresAt > now;
      if FindDevice(state.devices, record.name).Some? {
        var ended := record.(status := Used, usedAt := now);
        EndedTracks(items, rules, issued, made, stranded, k.value, ended, Made(q.id, newId));
        records := items[k.value := ended];
        return Denied(NotPending);
      }
      outcome := Enroll(items, k.value, newKey.value, newId, now, fault);
    }

    /** The invariant at each of the three points where an enrollment can end. */
    lemma EnrollmentKeeps(items: seq<Record>, k: nat, d: Device, used: Record)
      requires Valid() && k < |items| && Tracks(items, rules, issued, made, stranded) && items[k].status.Pending?
      requires FindDevice(state.devices, items[k].name) == None && NextHost(UsedHosts(state.devices), 2) == Some(d.host)
      requires d.id != "" && d.id !in DeviceIds(state.devices) && d.name == items[k].name
      requires d.expiry == items[k].expiry && d.info == items[k].info && used.id == items[k].id && used.name == items[k].name
      requires used.expiry == items[k].expiry && used.info == items[k].info && !used.status.Pending?
      ensures var made' := made + [Made(used.id, d.id)];
              && Integrity(rules, state.(devices := state.devices + [d])) && Integrity(rules, Enrolled(state, d, items[k].groups))
              && Enrolled(state, d, {}) == state.(devices := state.devices + [d])
              && Tracks(records, rules, issued, made', stranded + {used.id})
              && Tracks(items[k := used], rules, issued, made', stranded)
              && Creations(made', issued, stranded, state.devices + [d])
              && Creations(made', issued, stranded + {used.id}, state.devices + [d])
    {
      hide Integrity, Tracks, Creations, MadeOf, FindDevice, UsedHosts, NextHost, DeviceIds, DeviceNames, Joined;
      TracksRecord(items, rules, issued, made, stranded, k);
      Unmatched(state.devices, d.name);
      EnrolledKeeps(rules, state, d, {});
      EnrolledKeeps(rules, state, d, items[k].groups);
      JoinedNone(state.groups, d.id);
      StrandedTracks(records, rules, issued, made, stranded, Made(used.id, d.id));
      CreationCounts(made, issued, stranded, state.devices, d, used.id);
      EndedTracks(items, rules, issued, made, stranded, k, used, Made(used.id, d.id));
    }

    /** Adds the device, then puts it in its groups, then ends the record; if the second save fails the first is taken
        back. */
    method Enroll(items: seq<Record>, k: nat, key: string, newId: string, now: int, fault: Fault) returns (outcome: Outcome)
      requires Valid() && newId != "" && k < |items| && Tracks(items, rules, issued, made, stranded)
      requires items[k].status.Pending? && FindDevice(state.devices, items[k].name) == None
      modifies this
      ensures Valid() && issued == old(issued)
      ensures (outcome, Books(state, records)) == Admitted(Books(old(state), old(records)), items, k, key, newId, now, fault)
      ensures made == old(made) + if outcome.Denied? then [] else [Made(items[k].id, newId)]
      ensures stranded == old(stranded) + if outcome.Crashed? then {items[k].id} else {}
    {
      hide Integrity, Tracks, Creations, FindGroup, FindDevice, UsedHosts, NextHost, DeviceIds, Joined;
      var record := items[k];
      if exists g <- record.groups :: FindGroup(state.groups, g).None? {
        return Denied(GroupMissing);
      }
      if fault.KeyFails? {
        return Denied(NoKey);
      }
      var host := NextHost(UsedHosts(state.devices), 2);
      if host.None? {
        return Denied(NoAddress);
      }
      var device := Device(newId, record.name, key, host.value, true, record.expiry, record.info);
      if newId in DeviceIds(state.devices) {
        return Denied(SaveFailed);
      }
      var id := record.id;
      var used := record.(status := Used, usedAt := now, device := newId);
      EnrollmentKeeps(items, k, device, used);
      var devices := state.devices;
      state := state.(devices := devices + [device]);
      if fault.StopsEarly? {
        made, stranded := made + [Made(id, newId)], stranded + {id};
        return Crashed(device);
      }
      if record.groups != {} {
        var groups := JoinGroups(state.groups, record.groups, newId);
        if fault.SaveFails? {
          state := state.(devices := devices);
          return Denied(SaveFailed);
        }
        state := state.(groups := groups);
      }
      assert state == Enrolled(old(state), device, record.groups);
      made := made + [Made(id, newId)];
      if fault.StopsLate? {
        stranded := stranded + {id};
        return Crashed(device);
      }
      records := items[k := used];
      outcome := Success(device);
    }

    method ListEnrollments(now: int) returns (items: seq<Record>)
      requires Valid()
      modifies this`records
      ensures Valid() && records == items == Cleaned(old(records), now)
    {
      hide Integrity, Tracks, Creations, Cleaned;
      CleanedTracks(records, rules, issued, made, stranded, now);
      items := CleanupEnrollments(records, now);
      records := items;
    }

    /** Any operation on the registries between requests. */
    method Operate(op: Operation)
      requires Valid()
      modifies this`state
      ensures Valid() && state == if Apply(rules, old(state), op).Ok? then Apply(rules, old(state), op).value else old(state)
    {
      hide Integrity, Tracks, Apply, DeviceIds;
      var r := Apply(rules, state, op);
      if r.Ok? {
        ApplyKeeps(rules, state, op);
        ApplyKeepsIds(rules, state, op);
        state := r.value;
      }
    }

    /** An enrollment that has already made a device, which takes a crash, makes another for a matching request exactly
        if no device answers to its name, its groups exist and an address is free. */
    lemma SecondDevice(r: Record, m: Made, q: Request, newId: string, now: int)
      requires Valid() && r in records && m in made && m.enrollment == r.id
      requires Matching(checks, q, now, r) && newId !in DeviceIds(state.devices)
      ensures r.id in stranded
      ensures var (outcome, after) := Consumed(checks, Books(state, records), q, newId, now, NoFault);
              && (outcome.Success? <==>
                    && FindDevice(state.devices, r.name) == None
                    && (forall g <- r.groups :: FindGroup(state.groups, g).Some?)
                    && NextHost(UsedHosts(state.devices), 2).Some?)
              && (outcome.Success? ==>
                    && m.device != newId && m.device in DeviceIds(after.state.devices) && newId in DeviceIds(after.state.devices)
                    && exists e <- state.devices :: e.id == m.device && e.name != r.name)
    {
      hide Integrity, NextHost, UsedHosts, FindGroup, Cleaned, Consumed;
      assert MadeOf(made, r.id);
      SuccessMeans(checks, Books(state, records), q, newId, now, NoFault, r);
      if FindDevice(state.devices, r.name) == None {
        Unmatched(state.devices, r.name);
      }
    }

    /** Without a crash every enrollment, purged or not, has created at most one device. */
    lemma AtMostOneDevice(id: string)
      requires Valid() && id !in stranded
      ensures |set m | m in made && m.enrollment == id :: m.device| <= 1
    {
      var devices := set m | m in made && m.enrollment == id :: m.device;
      forall x, y | x in devices && y in devices ensures x == y {
        var i, j :| 0 <= i < |made| && made[i] == Made(id, x) && 0 <= j < |made| && made[j] == Made(id, y);
      }
      AllSame(devices);
    }
  }

  /** With empty registries a matching request that crashes leaves one device, on the first address. */
  lemma CrashAlone(checks: Checks, r: Record, q: Request, first: string, now: int, key: string)
    requires Matching(checks, q, now, r) && r.groups == {} && checks.key(q.publicKey) == Some(key)
    ensures var d := Device(first, r.name, key, 2, true, r.expiry, r.info);
            Consumed(checks, Books(EMPTY, [r]), q, first, now, StopsEarly) == (Crashed(d), Books(State([d], [], []), [r]))
  {
    hide Consumed, Cleaned, NextHost, FindDevice;
    NoHosts();
    NobodyAnswers(r.name);
    CrashMeans(checks, Books(EMPTY, [r]), q, first, now, StopsEarly, r);
    assert r in [r] && UniqueIds([r]);
    var d := Consumed(checks, Books(EMPTY, [r]), q, first, now, StopsEarly).0.stranded;
    assert EMPTY.devices + [d] == [d];
  }

  lemma NoHosts()
    ensures NextHost(UsedHosts([]), 2) == Some(2)
  {
    assert UsedHosts([]) == {};
  }

  lemma OneHost(d: Device)
    requires d.host == 2
    ensures NextHost(UsedHosts([d]), 2).Some?
  {
    assert UsedHosts([d]) == {2};
    assert 3 !in UsedHosts([d]);
  }

  lemma NobodyAnswers(name: string)
    ensures FindDevice([], name) == None && DeviceIds([]) == {}
  {
  }

  /** With that device renamed, the same request succeeds. */
  lemma SecondSucceeds(checks: Checks, r: Record, q: Request, d: Device, second: string, now: int)
    requires Matching(checks, q, now, r) && r.groups == {} && d.host == 2 && d.id != second && !Matches(d, r.name)
    ensures var (outcome, after) := Consumed(checks, Books(State([d], [], []), [r]), q, second, now, NoFault);
            && outcome.Success? && |after.state.devices| == 2
            && after.state.devices[0].id == d.id && after.state.devices[1].id == second
  {
    hide Consumed, Cleaned, NextHost;
    OneHost(d);
    assert DeviceIds([d]) == {d.id};
    assert FindDevice([d], r.name) == None;
    SuccessMeans(checks, Books(State([d], [], []), [r]), q, second, now, NoFault, r);
    assert r in [r] && UniqueIds([r]);
  }

  lemma RenameAlone(rules: Rules, d: Device, name: string)
    requires rules.name(name) && d.name != name
    ensures Apply(rules, State([d], [], []), RenamingDevice(d.id, name)) == Ok(State([d.(name := name)], [], []))
  {
    assert FindDevice([d], d.id) == Some(0);
    assert DeviceNames([d]) == {d.name};
    assert [d][0 := d.(name := name)] == [d.(name := name)];
  }

  /** An enrollment that a crash left pending, with its device. */
  method CrashedEnrollment(rules: Rules, checks: Checks, name: string, q: Request, first: string)
      returns (e: Enrollments, r: Record, d: Device)
    requires rules.name(name) && ValidInfo(rules, Never, "") && checks.key(q.publicKey).Some? && first != ""
    ensures fresh(e) && e.Valid() && e.rules == rules && e.checks == checks && e.made == [Made(q.id, first)]
    ensures e.state == State([d], [], []) && e.records == [r] && d.id == first && d.name == r.name == name && d.host == 2
    ensures r.groups == {} && forall now | now < 600 :: Matching(checks, q, now, r)
  {
    hide Integrity, Tracks, Creations, Consumed, Cleaned, FindDevice, FindGroup, NextHost;
    e := new Enrollments(rules, checks);
    NobodyAnswers(name);
    NothingToClean(0);
    var created := e.CreateEnrollment(name, {}, 600, q.token, q.id, Never, "", 0);
    r := created.value;
    assert e.records == [r] && e.state == EMPTY;
    CrashAlone(checks, r, q, first, 1, checks.key(q.publicKey).value);
    var crashed := e.ConsumeEnrollment(q, first, 1, StopsEarly);
    d := crashed.stranded;
    assert Books(e.state, e.records) == Books(State([d], [], []), [r]);
  }

  /** The failing run: a crash between the saves, a new name for the device, and the request once more. */
  method TwoDevicesFromOneEnrollment(rules: Rules, checks: Checks, name: string, other: string, q: Request,
                                     first: string, second: string) returns (e: Enrollments)
    requires rules.name(name) && rules.name(other) && ValidInfo(rules, Never, "") && checks.key(q.publicKey).Some?
    requires first != "" && second != "" && first != second && name != other && name != first
    ensures fresh(e) && e.Valid() && e.made == [Made(q.id, first), Made(q.id, second)]
    ensures |e.state.devices| == 2 && e.state.devices[0].id == first && e.state.devices[1].id == second
  {
    hide Integrity, Tracks, Creations, Consumed, Apply, Matching;
    var r, d;
    e, r, d := CrashedEnrollment(rules, checks, name, q, first);
    RenameAlone(rules, d, other);
    e.Operate(RenamingDevice(first, other));
    SecondSucceeds(checks, r, q, d.(name := other), second, 2);
    var outcome := e.ConsumeEnrollment(q, second, 2, NoFault);
  }

  lemma NothingToClean(now: int)
    ensures Cleaned([], now) == []
  {
  }

  lemma AllSame(devices: set<string>)
    requires forall x, y :: x in devices && y in devices ==> x == y
    ensures |devices| <= 1
  {
    if x :| x in devices {
      assert devices == {x};
    }
  }
}
