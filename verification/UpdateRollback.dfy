/**
 Software snapshots (update_engine.py: the archive written by `_create_software_rollback` and read by
 `_read_rollback`). The installed software is a map from paths to bytes.
 */
module UpdateRollback {
  import opened Wrappers
  import opened Bits
  import opened UpdatePaths
  import opened UpdatePackage

  const ROLLBACK_SCHEMA := "ge360-bridge-software-rollback/v1"

  type Software = map<string, Bytes>

  datatype Item = Item(path: string, existed: bool, size: int, digest: string, mode: int)

  datatype Snapshot = Snapshot(schema: string, files: seq<Item>)

  datatype RollbackEnv = RollbackEnv(sha: Bytes -> string,
                                     encode: Snapshot -> Bytes,
                                     decode: Bytes -> Option<Snapshot>)

  ghost predicate Faithful(env: RollbackEnv) {
    forall s :: env.decode(env.encode(s)) == Some(s)
  }

  ghost predicate AllCanonical(logicals: seq<string>) {
    forall f <- logicals :: Canonical(f)
  }

  // ---------- Writing ----------

  function Installed(software: Software, f: string): Bytes
    requires Canonical(f)
  {
    if TargetFor(f) in software then software[TargetFor(f)] else []
  }

  function ItemFor(env: RollbackEnv, software: Software, f: string): Item
    requires Canonical(f)
  {
    var data := Installed(software, f);
    Item(f, TargetFor(f) in software, |data|, env.sha(data), ModeFor(f))
  }

  function ItemsFor(env: RollbackEnv, software: Software, logicals: seq<string>): (items: seq<Item>)
    requires AllCanonical(logicals)
    ensures |items| == |logicals|
  {
    if logicals == [] then []
    else
      var last := |logicals| - 1;
      ItemsFor(env, software, logicals[..last]) + [ItemFor(env, software, logicals[last])]
  }

  lemma {:induction false} ItemsForAt(env: RollbackEnv, software: Software, logicals: seq<string>, i: nat)
    requires AllCanonical(logicals) && i < |logicals|
    ensures ItemsFor(env, software, logicals)[i] == ItemFor(env, software, logicals[i])
  {
    if i < |logicals| - 1 {
      ItemsForAt(env, software, logicals[..|logicals| - 1], i);
    }
  }

  function SnapshotOf(env: RollbackEnv, software: Software, logicals: seq<string>): Snapshot
    requires AllCanonical(logicals)
  {
    Snapshot(ROLLBACK_SCHEMA, ItemsFor(env, software, logicals))
  }

  function SavedMembers(raw: Bytes, software: Software, logicals: seq<string>): (members: seq<Member>)
    requires AllCanonical(logicals)
    ensures 1 <= |members| <= |logicals| + 1
  {
    if logicals == [] then [Regular(MANIFEST, raw)]
    else
      var f := logicals[|logicals| - 1];
      SavedMembers(raw, software, logicals[..|logicals| - 1])
      + if TargetFor(f) in software then [Regular(PAYLOAD + f, software[TargetFor(f)])] else []
  }

  function ArchiveOf(env: RollbackEnv, software: Software, logicals: seq<string>): seq<Member>
    requires AllCanonical(logicals)
  {
    SavedMembers(env.encode(SnapshotOf(env, software, logicals)), software, logicals)
  }

  function SavedSize(software: Software, logicals: seq<string>): nat
    requires AllCanonical(logicals)
  {
    if logicals == [] then 0
    else SavedSize(software, logicals[..|logicals| - 1]) + |Installed(software, logicals[|logicals| - 1])|
  }

  ghost function SavedPayload(software: Software, logicals: seq<string>): Payload
    requires AllCanonical(logicals)
  {
    map f | f in logicals && TargetFor(f) in software :: software[TargetFor(f)]
  }

  // ---------- Reading ----------

  datatype Loaded = Loaded(unpacked: nat, snapshot: Option<Snapshot>, payload: Payload)

  function LoadMember(env: RollbackEnv, m: Member, s: Loaded): Option<Loaded> {
    var unpacked := s.unpacked + Max0(m.size);
    if unpacked > MAX_UNPACKED_BYTES || !m.regular then None
    else if |m.data| != m.size || |m.data| > MAX_MEMBER_BYTES then None
    else if m.name == MANIFEST then
      match env.decode(m.data)
      case None => None
      case Some(snapshot) => Some(s.(unpacked := unpacked, snapshot := Some(snapshot)))
    else if PAYLOAD <= m.name then
      match SafeLogicalPath(m.name[|PAYLOAD|..])
      case Err(_) => None
      case Ok(logical) => Some(s.(unpacked := unpacked, payload := s.payload[logical := m.data]))
    else None
  }

  function Load(env: RollbackEnv, members: seq<Member>): Option<Loaded> {
    if members == [] then Some(Loaded(0, None, map[]))
    else
      match Load(env, members[..|members| - 1])
      case None => None
      case Some(s) => LoadMember(env, members[|members| - 1], s)
  }

  function ReadRollback(env: RollbackEnv, members: seq<Member>): Option<(Snapshot, Payload)> {
    if |members| > MAX_PACKAGE_FILES + 1 then None
    else
      match Load(env, members)
      case None => None
      case Some(s) =>
        if s.snapshot.None? || s.snapshot.value.schema != ROLLBACK_SCHEMA then None
        else Some((s.snapshot.value, s.payload))
  }

  // ---------- What reading gives ----------

  ghost predicate SavedFits(env: RollbackEnv, m: Member) {
    MemberFits(m) && (m.name == "manifest.json" ==> env.decode(m.data).Some?)
  }

  /** The last member that carries this. */
  ghost predicate Last(members: seq<Member>, what: Option<string>, data: Bytes) {
    exists i :: 0 <= i < |members| && Carried(members[i]) == what && members[i].data == data
                && forall j :: i < j < |members| ==> Carried(members[j]) != what
  }

  ghost predicate LastPayload(payload: Payload, members: seq<Member>) {
    && (forall f <- payload :: Last(members, Some(f), payload[f]))
    && (forall m <- members :: Carried(m).Some? ==> Carried(m).value in payload)
  }

  ghost predicate LastSnapshot(env: RollbackEnv, snapshot: Option<Snapshot>, members: seq<Member>) {
    && (snapshot.Some? ==> exists raw :: Last(members, None, raw) && env.decode(raw) == snapshot)
    && (snapshot.None? ==> forall m <- members :: Carried(m).Some?)
  }

  lemma LastIsUnique(members: seq<Member>, what: Option<string>, a: Bytes, b: Bytes)
    requires Last(members, what, a) && Last(members, what, b)
    ensures a == b
  {
    hide Carried;
  }

  lemma LastMore(init: seq<Member>, m: Member, what: Option<string>, data: Bytes)
    ensures Last(init + [m], what, data) <==> if Carried(m) == what then m.data == data else Last(init, what, data)
  {
    hide Carried;
    var members := init + [m];
    assert members[|init|] == m && forall i | 0 <= i < |init| :: members[i] == init[i];
    if Carried(m) != what && Last(init, what, data) {
      var i :| 0 <= i < |init| && Carried(init[i]) == what && init[i].data == data
               && forall j :: i < j < |init| ==> Carried(init[j]) != what;
      assert Carried(members[i]) == what;
    }
  }

  lemma LastMember(members: seq<Member>, what: Option<string>, data: Bytes)
    requires Last(members, what, data)
    ensures exists m <- members :: Carried(m) == what
  {
    hide Carried;
    var i :| 0 <= i < |members| && Carried(members[i]) == what;
    assert members[i] in members;
  }

  lemma LoadMemberMeans(env: RollbackEnv, m: Member, s: Loaded)
    ensures LoadMember(env, m, s).Some? <==> SavedFits(env, m) && s.unpacked + |m.data| <= 33554432
    ensures LoadMember(env, m, s).Some? ==>
              LoadMember(env, m, s).value
              == if Carried(m).None? then s.(unpacked := s.unpacked + |m.data|, snapshot := env.decode(m.data))
                 else s.(unpacked := s.unpacked + |m.data|, payload := s.payload[Carried(m).value := m.data])
  {
    hide SafeLogicalPath;
  }

  lemma PayloadLater(payload: Payload, init: seq<Member>, m: Member)
    requires LastPayload(payload, init)
    ensures LastPayload(if Carried(m).None? then payload else payload[Carried(m).value := m.data], init + [m])
  {
    hide Carried, Last;
    var after := if Carried(m).None? then payload else payload[Carried(m).value := m.data];
    forall f <- after ensures Last(init + [m], Some(f), after[f]) {
      LastMore(init, m, Some(f), after[f]);
    }
    assert forall x :: x in init + [m] <==> x in init || x == m;
  }

  lemma SnapshotLater(env: RollbackEnv, snapshot: Option<Snapshot>, init: seq<Member>, m: Member)
    requires LastSnapshot(env, snapshot, init) && (Carried(m).None? ==> env.decode(m.data).Some?)
    ensures LastSnapshot(env, if Carried(m).None? then env.decode(m.data) else snapshot, init + [m])
  {
    hide Carried, Last;
    assert forall x :: x in init + [m] <==> x in init || x == m;
    if Carried(m).None? {
      LastMore(init, m, None, m.data);
    } else if snapshot.Some? {
      var raw :| Last(init, None, raw) && env.decode(raw) == snapshot;
      LastMore(init, m, None, raw);
    }
  }

  /** The loop over the members passes exactly when all of them fit and the total keeps to the limit. Nothing is refused
      for coming twice: the last manifest counts, and for each path the last payload. */
  lemma {:induction false} LoadMeans(env: RollbackEnv, members: seq<Member>)
    ensures Load(env, members).Some? <==> (forall m <- members :: SavedFits(env, m)) && TotalSize(members) <= 33554432
    ensures Load(env, members).Some? ==>
              var s := Load(env, members).value;
              s.unpacked == TotalSize(members) && LastPayload(s.payload, members) && LastSnapshot(env, s.snapshot, members)
  {
    hide LoadMember, SavedFits, Carried, LastPayload, LastSnapshot, Last;
    if members == [] {
      NothingLoaded(env);
    } else {
      var init, m := members[..|members| - 1], members[|members| - 1];
      assert members == init + [m];
      assert forall x :: x in members <==> x in init || x == m;
      LoadMeans(env, init);
      if Load(env, init).Some? {
        var s := Load(env, init).value;
        LoadMemberMeans(env, m, s);
        if SavedFits(env, m) {
          ManifestDecodes(env, m);
          PayloadLater(s.payload, init, m);
          SnapshotLater(env, s.snapshot, init, m);
        }
      }
    }
  }

  lemma ManifestDecodes(env: RollbackEnv, m: Member)
    requires SavedFits(env, m)
    ensures Carried(m).None? ==> env.decode(m.data).Some?
  {
    hide SafeLogicalPath;
  }

  lemma NothingLoaded(env: RollbackEnv)
    ensures LastPayload(map[], []) && LastSnapshot(env, None, [])
  {
  }

  /** A snapshot file gives this snapshot and payload exactly if it keeps to the limits, all its members fit, its last
      manifest is the snapshot, of the known schema, and the payload is what its members carry last. */
  lemma ReadRollbackMeans(env: RollbackEnv, members: seq<Member>, snapshot: Snapshot, payload: Payload)
    ensures ReadRollback(env, members) == Some((snapshot, payload))
            <==> (|members| <= 257 && (forall m <- members :: SavedFits(env, m)) && TotalSize(members) <= 33554432
                  && LastSnapshot(env, Some(snapshot), members) && LastPayload(payload, members)
                  && snapshot.schema == "ge360-bridge-software-rollback/v1")
  {
    hide Load, SavedFits, LastPayload, LastSnapshot, TotalSize;
    LoadMeans(env, members);
    if Load(env, members).Some? {
      LoadedExactly(env, members, Load(env, members).value, snapshot, payload);
    }
  }

  lemma LoadedExactly(env: RollbackEnv, members: seq<Member>, s: Loaded, snapshot: Snapshot, payload: Payload)
    requires LastPayload(s.payload, members) && LastSnapshot(env, s.snapshot, members)
    ensures s.payload == payload <==> LastPayload(payload, members)
    ensures s.snapshot == Some(snapshot) <==> LastSnapshot(env, Some(snapshot), members)
  {
    hide LastPayload, LastSnapshot;
    if LastPayload(payload, members) {
      PayloadIsExact(s.payload, payload, members);
    }
    if LastSnapshot(env, Some(snapshot), members) {
      SnapshotIsExact(env, s.snapshot, snapshot, members);
    }
  }

  lemma PayloadIsExact(p: Payload, q: Payload, members: seq<Member>)
    requires LastPayload(p, members) && LastPayload(q, members)
    ensures p == q
  {
    hide Carried, Last;
    forall f | f in p || f in q ensures f in p && f in q && p[f] == q[f] {
      LastMember(members, Some(f), if f in p then p[f] else q[f]);
      LastIsUnique(members, Some(f), p[f], q[f]);
    }
  }

  lemma SnapshotIsExact(env: RollbackEnv, read: Option<Snapshot>, snapshot: Snapshot, members: seq<Member>)
    requires LastSnapshot(env, read, members) && LastSnapshot(env, Some(snapshot), members)
    ensures read == Some(snapshot)
  {
    hide Carried, Last;
    var raw :| Last(members, None, raw) && env.decode(raw) == Some(snapshot);
    LastMember(members, None, raw);
    var other :| Last(members, None, other) && env.decode(other) == read;
    LastIsUnique(members, None, raw, other);
  }

  // ---------- Round trip ----------

  lemma LoadHead(env: RollbackEnv, raw: Bytes, snapshot: Snapshot)
    requires env.decode(raw) == Some(snapshot)
    ensures LoadMember(env, Regular(MANIFEST, raw), Loaded(0, None, map[]))
            == if |raw| <= MAX_MEMBER_BYTES then Some(Loaded(|raw|, Some(snapshot), map[])) else None
  {
  }

  lemma LoadPayload(env: RollbackEnv, f: string, data: Bytes, s: Loaded)
    requires Canonical(f) && |data| <= MAX_MEMBER_BYTES
    ensures LoadMember(env, Regular(PAYLOAD + f, data), s)
            == if s.unpacked + |data| > MAX_UNPACKED_BYTES then None
               else Some(s.(unpacked := s.unpacked + |data|, payload := s.payload[f := data]))
  {
    hide SafeLogicalPath;
    PayloadName(f);
  }

  lemma SavedNothing(software: Software)
    ensures AllCanonical([]) && SavedPayload(software, []) == map[]
  {
  }

  lemma SavedStep(software: Software, logicals: seq<string>)
    requires AllCanonical(logicals) && logicals != []
    ensures var init, f := logicals[..|logicals| - 1], logicals[|logicals| - 1];
            && AllCanonical(init) && Canonical(f)
            && SavedPayload(software, logicals)
               == if TargetFor(f) in software then SavedPayload(software, init)[f := software[TargetFor(f)]]
                  else SavedPayload(software, init)
  {
    hide Canonical, TargetFor;
    var init, f := logicals[..|logicals| - 1], logicals[|logicals| - 1];
    assert logicals == init + [f];
  }

  lemma {:induction false} LoadSaved(env: RollbackEnv, raw: Bytes, snapshot: Snapshot, software: Software, logicals: seq<string>)
    requires AllCanonical(logicals) && env.decode(raw) == Some(snapshot)
    requires forall f <- logicals :: |Installed(software, f)| <= MAX_MEMBER_BYTES
    ensures Load(env, SavedMembers(raw, software, logicals))
            == if |raw| <= MAX_MEMBER_BYTES && |raw| + SavedSize(software, logicals) <= MAX_UNPACKED_BYTES
               then Some(Loaded(|raw| + SavedSize(software, logicals), Some(snapshot), SavedPayload(software, logicals)))
               else None
  {
    hide Canonical, LoadMember, Regular, SavedPayload, TargetFor, Load, SavedMembers;
    if logicals == [] {
      SavedNothing(software);
      LoadNothing(env, raw, snapshot, software);
    } else {
      var init, f := logicals[..|logicals| - 1], logicals[|logicals| - 1];
      SavedStep(software, logicals);
      assert logicals == init + [f] && f in logicals;
      assert forall g <- init :: g in logicals;
      LoadSaved(env, raw, snapshot, software, init);
      LoadStep(env, raw, software, logicals);
    }
  }

  lemma LoadNothing(env: RollbackEnv, raw: Bytes, snapshot: Snapshot, software: Software)
    requires env.decode(raw) == Some(snapshot)
    ensures Load(env, SavedMembers(raw, software, []))
            == if |raw| <= MAX_MEMBER_BYTES then Some(Loaded(|raw|, Some(snapshot), map[])) else None
  {
    hide LoadMember, Regular;
    var members := SavedMembers(raw, software, []);
    assert members[..0] == [];
    LoadHead(env, raw, snapshot);
  }

  lemma LoadStep(env: RollbackEnv, raw: Bytes, software: Software, logicals: seq<string>)
    requires AllCanonical(logicals) && logicals != [] && |Installed(software, logicals[|logicals| - 1])| <= MAX_MEMBER_BYTES
    ensures var init, f := logicals[..|logicals| - 1], logicals[|logicals| - 1];
            var s := Load(env, SavedMembers(raw, software, init));
            Load(env, SavedMembers(raw, software, logicals))
            == if s.None? || TargetFor(f) !in software then s
               else if s.value.unpacked + |software[TargetFor(f)]| > MAX_UNPACKED_BYTES then None
               else Some(s.value.(unpacked := s.value.unpacked + |software[TargetFor(f)]|,
                                  payload := s.value.payload[f := software[TargetFor(f)]]))
  {
    hide Canonical, LoadMember, Regular, TargetFor;
    var members := SavedMembers(raw, software, logicals);
    var init, f := logicals[..|logicals| - 1], logicals[|logicals| - 1];
    var s := Load(env, SavedMembers(raw, software, init));
    if TargetFor(f) in software {
      assert members[..|members| - 1] == SavedMembers(raw, software, init);
      assert members[|members| - 1] == Regular(PAYLOAD + f, software[TargetFor(f)]);
      if s.Some? {
        LoadPayload(env, f, software[TargetFor(f)], s.value);
      }
    } else {
      assert members == SavedMembers(raw, software, init);
    }
  }

  /** The limits under which a snapshot that was written can be read again. */
  ghost predicate Readable(env: RollbackEnv, software: Software, logicals: seq<string>)
    requires AllCanonical(logicals)
  {
    var raw := env.encode(SnapshotOf(env, software, logicals));
    |raw| <= MAX_MEMBER_BYTES && |raw| + SavedSize(software, logicals) <= MAX_UNPACKED_BYTES
  }

  /** A snapshot of at most 256 files reads back exactly when what was installed keeps to the size limits:
      nothing checks the total when the snapshot is written. */
  lemma SnapshotReadsBack(env: RollbackEnv, software: Software, logicals: seq<string>)
    requires Faithful(env) && AllCanonical(logicals) && |logicals| <= MAX_PACKAGE_FILES
    requires forall f <- logicals :: |Installed(software, f)| <= MAX_MEMBER_BYTES
    ensures ReadRollback(env, ArchiveOf(env, software, logicals))
            == if Readable(env, software, logicals)
               then Some((SnapshotOf(env, software, logicals), SavedPayload(software, logicals)))
               else None
  {
    hide Canonical, Load, Installed, TargetFor, SavedPayload, SavedSize;
    var snapshot := SnapshotOf(env, software, logicals);
    assert env.decode(env.encode(snapshot)) == Some(snapshot);
    LoadSaved(env, env.encode(snapshot), snapshot, software, logicals);
  }
}
