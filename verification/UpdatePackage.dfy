/**
 Update packages (update_engine.py: `_read_package`, `build_update_package`). An archive is the list of its
 tar members; the payload is keyed by logical path. SHA-256, JSON and the version patterns come from outside.
 */
module UpdatePackage {
  import opened Wrappers
  import opened Bits
  import opened UpdatePaths
  import opened Names

  const UPDATE_SCHEMA := "ge360-bridge-update/v1"
  const MAX_PACKAGE_BYTES: nat := 33554432
  const MAX_MEMBER_BYTES: nat := 4194304
  const MAX_PACKAGE_FILES: nat := 256
  const MAX_UNPACKED_BYTES: nat := 33554432
  const MANIFEST := "manifest.json"
  const PAYLOAD := "payload/"
  const INIT := "ge360_bridge/__init__.py"

  function RequiredPaths(): set<string> {
    {INIT, "ge360_bridge/cli.py", "ge360_bridge/core.py", "ge360_bridge/daemon.py", "ge360_bridge/dashboard.py",
     "ge360_bridge/pairing_server.py", WRAPPER}
  }

  datatype Entry = Entry(path: string, size: int, digest: string, mode: int)

  datatype Manifest = Manifest(schema: string, version: string, files: seq<Entry>)

  datatype Member = Member(name: string, regular: bool, size: int, data: Bytes)

  datatype Archive = Archive(size: nat, members: seq<Member>)

  type Payload = map<string, Bytes>

  /** What the engine takes from libraries: SHA-256, JSON (ill-formed documents decode to nothing), the two
      validators, and the version that an `__init__.py` declares. */
  datatype Env = Env(sha: Bytes -> string,
                     encode: Manifest -> Bytes,
                     decode: Bytes -> Option<Manifest>,
                     hex: string -> Option<string>,
                     version: string -> Option<string>,
                     initVersion: Bytes -> Option<string>)

  ghost predicate Sound(env: Env) {
    && (forall m :: env.decode(env.encode(m)) == Some(m))
    && (forall d :: env.hex(env.sha(d)) == Some(env.sha(d)))
    && (forall v :: env.version(v).Some? ==> env.version(env.version(v).value) == env.version(v))
  }

  ghost predicate InjectiveHash(sha: Bytes -> string) {
    forall a, b :: sha(a) == sha(b) ==> a == b
  }

  datatype Error =
    | BadSize
    | TooManyFiles
    | TooMuchData
    | Irregular
    | MemberTooLarge
    | BadPath
    | Duplicate
    | ShortMember
    | NoManifest
    | BadManifest
    | BadSchema
    | BadVersion
    | NoFiles
    | BadMode
    | MissingPayload
    | SizeMismatch
    | BadDigest
    | ChecksumMismatch
    | ExtraPayload
    | MissingRuntime
    | VersionMismatch

  // ---------- Reading ----------

  datatype Scanned = Scanned(unpacked: nat, manifest: Option<Bytes>, payload: Payload)

  function Max0(n: int): nat {
    if n > 0 then n else 0
  }

  /** One tar member, after those that gave `s`. */
  function ScanMember(m: Member, s: Scanned): Result<Scanned, Error> {
    var unpacked := s.unpacked + Max0(m.size);
    if unpacked > MAX_UNPACKED_BYTES then Err(TooMuchData)
    else if !m.regular then Err(Irregular)
    else if m.size < 0 || m.size > MAX_MEMBER_BYTES then Err(MemberTooLarge)
    else if m.name == MANIFEST then
      if s.manifest.Some? then Err(Duplicate)
      else if |m.data| != m.size then Err(ShortMember)
      else Ok(s.(unpacked := unpacked, manifest := Some(m.data)))
    else if PAYLOAD <= m.name then
      match SafeLogicalPath(m.name[|PAYLOAD|..])
      case Err(_) => Err(BadPath)
      case Ok(logical) =>
        if logical in s.payload then Err(Duplicate)
        else if |m.data| != m.size then Err(ShortMember)
        else Ok(s.(unpacked := unpacked, payload := s.payload[logical := m.data]))
    else Err(BadPath)
  }

  function Scan(members: seq<Member>): Result<Scanned, Error> {
    if members == [] then Ok(Scanned(0, None, map[]))
    else
      match Scan(members[..|members| - 1])
      case Err(e) => Err(e)
      case Ok(s) => ScanMember(members[|members| - 1], s)
  }

  /** One manifest entry, after those that declared `seen`. */
  function CheckEntry(env: Env, e: Entry, seen: set<string>, payload: Payload): Result<string, Error> {
    match SafeLogicalPath(e.path)
    case Err(_) => Err(BadPath)
    case Ok(logical) =>
      if logical in seen then Err(Duplicate)
      else if e.mode != (if IsScript(logical) then 0x1ED else 0x1A4) then Err(BadMode)
      else if logical !in payload then Err(MissingPayload)
      else if e.size != |payload[logical]| then Err(SizeMismatch)
      else match env.hex(e.digest)
        case None => Err(BadDigest)
        case Some(digest) => if digest != env.sha(payload[logical]) then Err(ChecksumMismatch) else Ok(logical)
  }

  function CheckEntries(env: Env, files: seq<Entry>, payload: Payload): Result<set<string>, Error> {
    if files == [] then Ok({})
    else
      match CheckEntries(env, files[..|files| - 1], payload)
      case Err(e) => Err(e)
      case Ok(seen) =>
        match CheckEntry(env, files[|files| - 1], seen, payload)
        case Err(e) => Err(e)
        case Ok(logical) => Ok(seen + {logical})
  }

  function CheckManifest(env: Env, manifest: Manifest, payload: Payload): Option<Error> {
    if manifest.schema != UPDATE_SCHEMA then Some(BadSchema)
    else if env.version(manifest.version).None? then Some(BadVersion)
    else if manifest.files == [] then Some(NoFiles)
    else
      match CheckEntries(env, manifest.files, payload)
      case Err(e) => Some(e)
      case Ok(seen) =>
        if seen != payload.Keys then Some(ExtraPayload)
        else if !(RequiredPaths() <= seen) then Some(MissingRuntime)
        else if env.initVersion(payload[INIT]) != env.version(manifest.version) then Some(VersionMismatch)
        else None
  }

  function Read(env: Env, a: Archive): Result<(Manifest, Payload), Error> {
    if a.size == 0 || a.size > MAX_PACKAGE_BYTES then Err(BadSize)
    else if |a.members| > MAX_PACKAGE_FILES + 1 then Err(TooManyFiles)
    else
      match Scan(a.members)
      case Err(e) => Err(e)
      case Ok(s) =>
        if s.manifest.None? then Err(NoManifest)
        else
          match env.decode(s.manifest.value)
          case None => Err(BadManifest)
          case Some(manifest) =>
            match CheckManifest(env, manifest, s.payload)
            case Some(e) => Err(e)
            case None => Ok((manifest, s.payload))
  }

  method ReadPackage(env: Env, a: Archive) returns (r: Result<(Manifest, Payload), Error>)
    ensures r == Read(env, a)
  {
    if a.size == 0 || a.size > MAX_PACKAGE_BYTES {
      return Err(BadSize);
    }
    if |a.members| > MAX_PACKAGE_FILES + 1 {
      return Err(TooManyFiles);
    }
    var s := ScanAll(a.members);
    if s.Err? {
      return Err(s.error);
    }
    if s.value.manifest.None? {
      return Err(NoManifest);
    }
    var decoded := env.decode(s.value.manifest.value);
    if decoded.None? {
      return Err(BadManifest);
    }
    var manifest := decoded.value;
    if manifest.schema != UPDATE_SCHEMA {
      return Err(BadSchema);
    }
    var version := env.version(manifest.version);
    if version.None? {
      return Err(BadVersion);
    }
    if manifest.files == [] {
      return Err(NoFiles);
    }
    var seen := CheckAll(env, manifest.files, s.value.payload);
    if seen.Err? {
      return Err(seen.error);
    }
    if seen.value != s.value.payload.Keys {
      return Err(ExtraPayload);
    }
    if !(RequiredPaths() <= seen.value) {
      return Err(MissingRuntime);
    }
    if env.initVersion(s.value.payload[INIT]) != version {
      return Err(VersionMismatch);
    }
    r := Ok((manifest, s.value.payload));
  }

  method ScanAll(members: seq<Member>) returns (r: Result<Scanned, Error>)
    ensures r == Scan(members)
  {
    var s := Scanned(0, None, map[]);
    for i := 0 to |members|
      invariant Scan(members[..i]) == Ok(s)
    {
      ScanSplit(members, i);
      var next := ScanMember(members[i], s);
      if next.Err? {
        ScanFails(members, i + 1);
        return Err(next.error);
      }
      s := next.value;
    }
    assert members[..|members|] == members;
    r := Ok(s);
  }

  lemma ScanSplit(members: seq<Member>, i: nat)
    requires i < |members| && Scan(members[..i]).Ok?
    ensures Scan(members[..i + 1]) == ScanMember(members[i], Scan(members[..i]).value)
  {
    assert members[..i + 1][..i] == members[..i];
  }

  lemma {:induction false} ScanFails(members: seq<Member>, n: nat)
    requires n <= |members| && Scan(members[..n]).Err?
    ensures Scan(members) == Scan(members[..n])
  {
    if n == |members| {
      assert members[..n] == members;
    } else {
      var init := members[..|members| - 1];
      assert init[..n] == members[..n];
      ScanFails(init, n);
    }
  }

  method CheckAll(env: Env, files: seq<Entry>, payload: Payload) returns (r: Result<set<string>, Error>)
    ensures r == CheckEntries(env, files, payload)
  {
    var seen := {};
    for i := 0 to |files|
      invariant CheckEntries(env, files[..i], payload) == Ok(seen)
    {
      assert files[..i + 1][..i] == files[..i];
      var logical := CheckEntry(env, files[i], seen, payload);
      if logical.Err? {
        CheckFails(env, files, payload, i + 1);
        return Err(logical.error);
      }
      seen := seen + {logical.value};
    }
    assert files[..|files|] == files;
    r := Ok(seen);
  }

  lemma {:induction false} CheckFails(env: Env, files: seq<Entry>, payload: Payload, n: nat)
    requires n <= |files| && CheckEntries(env, files[..n], payload).Err?
    ensures CheckEntries(env, files, payload) == CheckEntries(env, files[..n], payload)
  {
    if n == |files| {
      assert files[..n] == files;
    } else {
      var init := files[..|files| - 1];
      assert init[..n] == files[..n];
      CheckFails(env, init, payload, n);
    }
  }

  // ---------- What acceptance means ----------

  /** A regular member of at most four mebibytes, with all its bytes, that is the manifest or a permitted payload. */
  ghost predicate MemberFits(m: Member) {
    && m.regular && 0 <= m.size <= 4194304 && |m.data| == m.size
    && (m.name == "manifest.json" || ("payload/" <= m.name && SafeLogicalPath(m.name[8..]).Ok?))
  }

  /** What a member carries: the manifest, or the payload of a logical path. */
  ghost function Carried(m: Member): Option<string> {
    if m.name == "manifest.json" || |m.name| < 8 || SafeLogicalPath(m.name[8..]).Err? then None
    else Some(SafeLogicalPath(m.name[8..]).value)
  }

  ghost function TotalSize(members: seq<Member>): nat {
    if members == [] then 0 else TotalSize(members[..|members| - 1]) + |members[|members| - 1].data|
  }

  ghost predicate Scannable(members: seq<Member>) {
    && (forall m <- members :: MemberFits(m))
    && (forall i, j :: 0 <= i < j < |members| ==> Carried(members[i]) != Carried(members[j]))
    && TotalSize(members) <= 33554432
  }

  /** What was read is what the members carry. */
  ghost predicate Carries(s: Scanned, members: seq<Member>) {
    s.unpacked == TotalSize(members) && CarriesManifest(s.manifest, members) && CarriesPayload(s.payload, members)
  }

  ghost predicate CarriesManifest(manifest: Option<Bytes>, members: seq<Member>) {
    && (forall m <- members :: Carried(m) == None ==> manifest == Some(m.data))
    && (manifest.Some? ==> exists m <- members :: Carried(m) == None)
  }

  ghost predicate CarriesPayload(payload: Payload, members: seq<Member>) {
    && (forall m <- members :: Carried(m).Some? ==> Carried(m).value in payload && payload[Carried(m).value] == m.data)
    && (forall f <- payload :: exists m <- members :: Carried(m) == Some(f))
  }

  lemma MemberMeans(m: Member, s: Scanned)
    ensures ScanMember(m, s).Ok?
            <==> MemberFits(m) && s.unpacked + |m.data| <= 33554432
                 && (if Carried(m).None? then s.manifest.None? else Carried(m).value !in s.payload)
    ensures ScanMember(m, s).Ok? ==>
              ScanMember(m, s).value == if Carried(m).None? then s.(unpacked := s.unpacked + |m.data|, manifest := Some(m.data))
                                        else s.(unpacked := s.unpacked + |m.data|, payload := s.payload[Carried(m).value := m.data])
  {
    hide SafeLogicalPath;
  }

  lemma CarriesMore(s: Scanned, init: seq<Member>, m: Member, t: Scanned)
    requires Carries(s, init) && (if Carried(m).None? then s.manifest.None? else Carried(m).value !in s.payload)
    requires t == if Carried(m).None? then s.(unpacked := s.unpacked + |m.data|, manifest := Some(m.data))
                  else s.(unpacked := s.unpacked + |m.data|, payload := s.payload[Carried(m).value := m.data])
    ensures Carries(t, init + [m])
  {
    hide Carried;
    assert (init + [m])[..|init|] == init;
    ManifestMore(s.manifest, init, m);
    PayloadMore(s.payload, init, m);
    hide CarriesManifest, CarriesPayload;
  }

  lemma ManifestMore(manifest: Option<Bytes>, init: seq<Member>, m: Member)
    requires CarriesManifest(manifest, init) && (Carried(m).None? ==> manifest.None?)
    ensures CarriesManifest(if Carried(m).None? then Some(m.data) else manifest, init + [m])
  {
    hide Carried;
    CarriedMore(init, m, None);
    assert forall x :: x in init + [m] <==> x in init || x == m;
  }

  lemma PayloadMore(payload: Payload, init: seq<Member>, m: Member)
    requires CarriesPayload(payload, init) && (Carried(m).Some? ==> Carried(m).value !in payload)
    ensures CarriesPayload(if Carried(m).None? then payload else payload[Carried(m).value := m.data], init + [m])
  {
    hide Carried;
    assert forall x :: x in init + [m] <==> x in init || x == m;
    forall f | f in payload || Carried(m) == Some(f) ensures exists x <- init + [m] :: Carried(x) == Some(f) {
      CarriedMore(init, m, Some(f));
    }
  }

  lemma CarriedMore(init: seq<Member>, m: Member, what: Option<string>)
    ensures (exists x <- init + [m] :: Carried(x) == what) <==> Carried(m) == what || exists x <- init :: Carried(x) == what
  {
    hide Carried;
    assert forall x :: x in init + [m] <==> x in init || x == m;
  }

  lemma NewIsDistinct(s: Scanned, init: seq<Member>, m: Member)
    requires Carries(s, init)
    ensures (if Carried(m).None? then s.manifest.None? else Carried(m).value !in s.payload)
            <==> forall i :: 0 <= i < |init| ==> Carried(init[i]) != Carried(m)
  {
    hide Carried;
    if forall i :: 0 <= i < |init| ==> Carried(init[i]) != Carried(m) {
      assert forall x <- init :: Carried(x) != Carried(m);
    }
    forall i | 0 <= i < |init| ensures init[i] in init {
    }
  }

  lemma ScannableMore(init: seq<Member>, m: Member)
    ensures Scannable(init + [m])
            <==> Scannable(init) && MemberFits(m) && (forall i :: 0 <= i < |init| ==> Carried(init[i]) != Carried(m))
                 && TotalSize(init) + |m.data| <= 33554432
  {
    hide Carried, MemberFits;
    var members := init + [m];
    assert members[..|init|] == init && members[|init|] == m;
    assert forall x :: x in members <==> x in init || x == m;
    assert forall i | 0 <= i < |init| :: members[i] == init[i];
  }

  /** The loop over the members passes exactly when every member fits, none comes twice, and the total keeps to the
      limit; it gives what they carry. */
  lemma {:induction false} ScanMeans(members: seq<Member>)
    ensures Scan(members).Ok? <==> Scannable(members)
    ensures Scan(members).Ok? ==> Carries(Scan(members).value, members)
  {
    hide ScanMember, MemberFits, Carried, Scannable, Carries;
    if members == [] {
      NothingScanned();
    } else {
      var init, m := members[..|members| - 1], members[|members| - 1];
      assert members == init + [m];
      ScanMeans(init);
      ScannableMore(init, m);
      if Scan(init).Ok? {
        var s := Scan(init).value;
        MemberMeans(m, s);
        NewIsDistinct(s, init, m);
        UnpackedIsTotal(s, init);
        if ScanMember(m, s).Ok? {
          CarriesMore(s, init, m, ScanMember(m, s).value);
        }
      }
    }
  }

  lemma UnpackedIsTotal(s: Scanned, members: seq<Member>)
    requires Carries(s, members)
    ensures s.unpacked == TotalSize(members)
  {
  }

  lemma NothingScanned()
    ensures Scannable([]) && Carries(Scanned(0, None, map[]), [])
  {
  }

  /** The entry names a canonical path, and size, mode and digest are those of its payload. */
  ghost predicate EntryFits(env: Env, e: Entry, payload: Payload) {
    && SafeLogicalPath(e.path).Ok?
    && var logical := SafeLogicalPath(e.path).value;
       && e.mode == (if IsScript(logical) then 0x1ED else 0x1A4)
       && logical in payload && e.size == |payload[logical]|
       && env.hex(e.digest) == Some(env.sha(payload[logical]))
  }

  ghost predicate DistinctPaths(files: seq<Entry>) {
    forall i, j :: 0 <= i < j < |files| ==> SafeLogicalPath(files[i].path) != SafeLogicalPath(files[j].path)
  }

  ghost function Declared(files: seq<Entry>): set<string>
    requires forall e <- files :: SafeLogicalPath(e.path).Ok?
  {
    set e | e in files :: SafeLogicalPath(e.path).value
  }

  lemma EntryCheck(env: Env, e: Entry, seen: set<string>, payload: Payload)
    ensures CheckEntry(env, e, seen, payload).Ok?
            <==> EntryFits(env, e, payload) && SafeLogicalPath(e.path).value !in seen
    ensures CheckEntry(env, e, seen, payload).Ok? ==>
              CheckEntry(env, e, seen, payload).value == SafeLogicalPath(e.path).value
  {
    hide SafeLogicalPath, IsScript;
  }

  lemma DistinctAppend(init: seq<Entry>, e: Entry)
    requires forall f <- init + [e] :: SafeLogicalPath(f.path).Ok?
    ensures e in init + [e] && forall f <- init :: f in init + [e]
    ensures Declared(init + [e]) == Declared(init) + {SafeLogicalPath(e.path).value}
    ensures DistinctPaths(init + [e]) <==> DistinctPaths(init) && SafeLogicalPath(e.path).value !in Declared(init)
  {
    hide SafeLogicalPath;
    var files := init + [e];
    assert forall i | 0 <= i < |init| :: files[i] == init[i] && init[i] in init;
    assert files[|init|] == e;
    if DistinctPaths(files) {
      forall f <- init ensures SafeLogicalPath(f.path) != SafeLogicalPath(e.path) {
        var i :| 0 <= i < |init| && init[i] == f;
        assert SafeLogicalPath(files[i].path) != SafeLogicalPath(files[|init|].path);
      }
      assert DistinctPaths(init);
    }
    if DistinctPaths(init) && SafeLogicalPath(e.path).value !in Declared(init) {
      forall i, j | 0 <= i < j < |files| ensures SafeLogicalPath(files[i].path) != SafeLogicalPath(files[j].path) {
        if j == |init| {
          assert files[i] in init;
        }
      }
    }
  }

  lemma FitsAreSafe(env: Env, files: seq<Entry>, payload: Payload)
    requires forall f <- files :: EntryFits(env, f, payload)
    ensures forall f <- files :: SafeLogicalPath(f.path).Ok?
  {
    hide SafeLogicalPath, IsScript;
  }

  /** The loop over the manifest passes exactly when every entry fits and no path is declared twice. */
  lemma {:induction false} EntriesFit(env: Env, files: seq<Entry>, payload: Payload)
    ensures CheckEntries(env, files, payload).Ok?
            <==> (forall e <- files :: EntryFits(env, e, payload)) && DistinctPaths(files)
    ensures CheckEntries(env, files, payload).Ok? ==> CheckEntries(env, files, payload).value == Declared(files)
  {
    hide SafeLogicalPath, IsScript, CheckEntry, DistinctPaths, EntryFits;
    if files == [] {
      NoPathsAreDistinct();
    } else {
      var init, e := files[..|files| - 1], files[|files| - 1];
      EntriesFit(env, init, payload);
      assert files == init + [e] && e in files;
      assert forall f <- init :: f in files;
      if CheckEntries(env, init, payload).Ok? {
        EntryCheck(env, e, CheckEntries(env, init, payload).value, payload);
      }
      if (forall f <- init :: EntryFits(env, f, payload)) && EntryFits(env, e, payload) {
        assert forall f <- files :: f in init || f == e;
        FitsAreSafe(env, files, payload);
        DistinctAppend(init, e);
      }
    }
  }

  lemma NoPathsAreDistinct()
    ensures DistinctPaths([])
  {
  }

  /** A manifest and a payload belong together. */
  ghost predicate Describes(env: Env, m: Manifest, payload: Payload) {
    && (forall e <- m.files :: EntryFits(env, e, payload))
    && DistinctPaths(m.files)
    && payload.Keys == Declared(m.files)
  }

  /** In an accepted archive the payload names are exactly the manifest names, every runtime file is there,
      and each entry fits its payload. */
  lemma AcceptedIsDescribed(env: Env, a: Archive)
    requires Read(env, a).Ok?
    ensures var (m, payload) := Read(env, a).value;
            Describes(env, m, payload) && RequiredPaths() <= payload.Keys && m.schema == UPDATE_SCHEMA
            && env.initVersion(payload[INIT]) == env.version(m.version)
  {
    hide SafeLogicalPath, Scan;
    var (m, payload) := Read(env, a).value;
    EntriesFit(env, m.files, payload);
  }

  /** An archive is accepted exactly if it keeps to the limits, its members can be scanned, and its manifest is of the
      known schema, has a valid version, declares the payload and nothing else, and is complete. */
  lemma ReadMeans(env: Env, a: Archive)
    ensures Read(env, a).Ok?
            <==> (0 < a.size <= 33554432 && |a.members| <= 257 && Scannable(a.members)
                  && exists s: Scanned :: Carries(s, a.members) && Complete(env, s))
    ensures Read(env, a).Ok? ==>
              exists s: Scanned :: Carries(s, a.members) && Complete(env, s)
                                   && Read(env, a).value == (env.decode(s.manifest.value).value, s.payload)
  {
    hide Scannable, Carries, Scan, Complete, CheckManifest;
    ScanMeans(a.members);
    if Scan(a.members).Ok? {
      var s := Scan(a.members).value;
      CompleteMeans(env, s);
      forall t: Scanned | Carries(t, a.members) ensures t == s {
        CarriesIsExact(s, t, a.members);
      }
    }
  }

  lemma CompleteMeans(env: Env, s: Scanned)
    ensures Complete(env, s)
            <==> s.manifest.Some? && env.decode(s.manifest.value).Some?
                 && CheckManifest(env, env.decode(s.manifest.value).value, s.payload).None?
  {
    hide EntryFits, SafeLogicalPath, CheckEntries, DistinctPaths, RequiredPaths;
    InitIsRequired();
    if s.manifest.Some? && env.decode(s.manifest.value).Some? {
      EntriesFit(env, env.decode(s.manifest.value).value.files, s.payload);
    }
  }

  /** The cause of each refusal of a member, after those that gave `s`. */
  lemma MemberRefusals(m: Member, s: Scanned)
    requires s.unpacked <= 33554432
    ensures match ScanMember(m, s)
            case Ok(_) => true
            case Err(TooMuchData) => m.size > 0 && s.unpacked + m.size > 33554432
            case Err(Irregular) => !m.regular
            case Err(MemberTooLarge) => m.size < 0 || m.size > 4194304
            case Err(Duplicate) => if m.name == "manifest.json" then s.manifest.Some? else Carried(m).Some? && Carried(m).value in s.payload
            case Err(ShortMember) => |m.data| != m.size
            case Err(BadPath) => m.name != "manifest.json" && !("payload/" <= m.name && SafeLogicalPath(m.name[8..]).Ok?)
            case Err(_) => false
  {
    hide SafeLogicalPath;
  }

  /** The cause of each refusal of a manifest entry, after those that declared `seen`. */
  lemma EntryRefusals(env: Env, e: Entry, seen: set<string>, payload: Payload)
    ensures var path := SafeLogicalPath(e.path);
            match CheckEntry(env, e, seen, payload)
            case Ok(_) => true
            case Err(BadPath) => path.Err?
            case Err(Duplicate) => path.Ok? && path.value in seen
            case Err(BadMode) => path.Ok? && e.mode != (if IsScript(path.value) then 0x1ED else 0x1A4)
            case Err(MissingPayload) => path.Ok? && path.value !in payload
            case Err(SizeMismatch) => path.Ok? && path.value in payload && e.size != |payload[path.value]|
            case Err(BadDigest) => env.hex(e.digest).None?
            case Err(ChecksumMismatch) =>
              path.Ok? && path.value in payload && env.hex(e.digest).Some? && env.hex(e.digest).value != env.sha(payload[path.value])
            case Err(_) => false
  {
    hide SafeLogicalPath, IsScript;
  }

  /** The cause of each refusal of a manifest, once its entries fit. */
  lemma ManifestRefusals(env: Env, m: Manifest, payload: Payload)
    requires CheckEntries(env, m.files, payload).Ok?
    ensures match CheckManifest(env, m, payload)
            case None => true
            case Some(BadSchema) => m.schema != "ge360-bridge-update/v1"
            case Some(BadVersion) => env.version(m.version).None?
            case Some(NoFiles) => m.files == []
            case Some(ExtraPayload) => exists f <- payload :: forall e <- m.files :: SafeLogicalPath(e.path) != Ok(f)
            case Some(MissingRuntime) => exists f <- RequiredPaths() :: f !in payload
            case Some(VersionMismatch) => INIT in payload && env.initVersion(payload[INIT]) != env.version(m.version)
            case Some(_) => false
  {
    hide SafeLogicalPath, EntryFits, DistinctPaths, RequiredPaths, CheckEntries;
    EntriesFit(env, m.files, payload);
    if CheckManifest(env, m, payload) == Some(ExtraPayload) {
      FitsAreSafe(env, m.files, payload);
      DeclaredIsCarried(env, m.files, payload);
    }
    InitIsRequired();
  }

  lemma DeclaredIsCarried(env: Env, files: seq<Entry>, payload: Payload)
    requires forall e <- files :: SafeLogicalPath(e.path).Ok? && EntryFits(env, e, payload)
    ensures Declared(files) <= payload.Keys
  {
    hide SafeLogicalPath, IsScript;
  }

  ghost predicate Complete(env: Env, s: Scanned) {
    && s.manifest.Some? && env.decode(s.manifest.value).Some?
    && var m := env.decode(s.manifest.value).value;
       && m.schema == "ge360-bridge-update/v1" && env.version(m.version).Some? && m.files != []
       && Describes(env, m, s.payload) && RequiredPaths() <= s.payload.Keys
       && INIT in s.payload && env.initVersion(s.payload[INIT]) == env.version(m.version)
  }

  lemma CarriesIsExact(s: Scanned, t: Scanned, members: seq<Member>)
    requires Carries(s, members) && Carries(t, members)
    ensures s == t
  {
    hide Carried;
    forall f ensures f in s.payload <==> f in t.payload {
    }
    forall f | f in s.payload && f in t.payload ensures s.payload[f] == t.payload[f] {
      var m :| m in members && Carried(m) == Some(f);
    }
    assert s.payload == t.payload;
  }

  /** Under an injective hash the manifest determines the payload. */
  lemma ManifestDeterminesPayload(env: Env, m: Manifest, p: Payload, q: Payload)
    requires InjectiveHash(env.sha) && Describes(env, m, p) && Describes(env, m, q)
    ensures p == q
  {
    hide SafeLogicalPath, IsScript;
    forall k | k in p ensures p[k] == q[k] {
      var e :| e in m.files && SafeLogicalPath(e.path).value == k;
      assert EntryFits(env, e, p) && EntryFits(env, e, q);
    }
  }

  /** Two accepted archives with the same manifest carry the same payload. */
  lemma TamperingShows(env: Env, a: Archive, b: Archive)
    requires InjectiveHash(env.sha) && Read(env, a).Ok? && Read(env, b).Ok?
    requires Read(env, a).value.0 == Read(env, b).value.0
    ensures Read(env, a) == Read(env, b)
  {
    hide Scan, CheckManifest, Describes;
    AcceptedIsDescribed(env, a);
    AcceptedIsDescribed(env, b);
    ManifestDeterminesPayload(env, Read(env, a).value.0, Read(env, a).value.1, Read(env, b).value.1);
  }

  // ---------- Building ----------

  function EntryFor(env: Env, f: string, data: Bytes): Entry
    requires Canonical(f)
  {
    Entry(f, |data|, env.sha(data), ModeFor(f))
  }

  function EntriesFor(env: Env, source: Payload, files: seq<string>): seq<Entry>
    requires forall f <- files :: f in source && Canonical(f)
  {
    if files == [] then []
    else
      var f := files[|files| - 1];
      EntriesFor(env, source, files[..|files| - 1]) + [EntryFor(env, f, source[f])]
  }

  lemma {:induction false} EntriesForAt(env: Env, source: Payload, files: seq<string>)
    requires forall f <- files :: f in source && Canonical(f)
    ensures var entries := EntriesFor(env, source, files);
            |entries| == |files|
            && forall i :: 0 <= i < |files| ==> entries[i] == EntryFor(env, files[i], source[files[i]])
  {
    hide Canonical, ModeFor;
    if files != [] {
      EntriesForAt(env, source, files[..|files| - 1]);
    }
  }

  function Regular(name: string, data: Bytes): Member {
    Member(name, true, |data|, data)
  }

  function MembersFor(manifest: Bytes, source: Payload, files: seq<string>): seq<Member>
    requires forall f <- files :: f in source
  {
    if files == [] then [Regular(MANIFEST, manifest)]
    else
      var f := files[|files| - 1];
      MembersFor(manifest, source, files[..|files| - 1]) + [Regular(PAYLOAD + f, source[f])]
  }

  function DataSize(source: Payload, files: seq<string>): nat
    requires forall f <- files :: f in source
  {
    if files == [] then 0
    else DataSize(source, files[..|files| - 1]) + |source[files[|files| - 1]]|
  }

  ghost function Selected(source: Payload, files: seq<string>): Payload
    requires forall f <- files :: f in source
  {
    map f | f in source && f in files :: source[f]
  }

  datatype BuildError = BuildBadPath | BuildMissingRuntime | BuildNoVersion | BuildBadVersion | BuildTooLarge

  predicate IsUnitFile(rel: string) {
    var parts := Parts(rel);
    |parts| == 2 && parts[0] == "systemd" && WRAPPER <= parts[1]
    && (EndsWith(parts[1], ".service") || EndsWith(parts[1], ".timer"))
  }

  /** What `_source_files` collects from a source tree. */
  predicate Collected(rel: string) {
    (IsModule(rel) && EndsWith(rel, ".py")) || IsScript(rel) || IsUnitFile(rel)
  }

  /** The collected files: Python files of the package, the three scripts, and units whose name begins like the bridge. */
  lemma CollectedMeans(rel: string)
    requires Join(Parts(rel)) == rel
    ensures Collected(rel)
            <==> (("ge360_bridge/" <= rel && EndsWith(rel, ".py"))
                  || rel in {"ge360-bridge", "scripts/apply-firewall.sh", "scripts/boot-verify.sh"}
                  || exists n :: rel == "systemd/" + n && '/' !in n && "ge360-bridge" <= n
                                 && (EndsWith(n, ".service") || EndsWith(n, ".timer")))
  {
    var parts := Parts(rel);
    PartsArePieces(rel);
    hide Parts, EndsWith;
    if |parts| == 2 && parts[0] == "systemd" {
      JoinTwo(parts);
      assert parts[1] in parts && rel == "systemd/" + parts[1];
    }
    if n :| rel == "systemd/" + n && '/' !in n && "ge360-bridge" <= n && (EndsWith(n, ".service") || EndsWith(n, ".timer")) {
      assert Piece(n) && parts != [];
      UnitParts(parts, n);
    }
  }

  ghost predicate Buildable(env: Env, source: Payload, files: seq<string>) {
    && Distinct(files) && (forall f <- files :: f in source && Canonical(f) && |source[f]| <= MAX_MEMBER_BYTES)
    && INIT in files
    && env.initVersion(source[INIT]).Some? && env.version(env.initVersion(source[INIT]).value).Some?
  }

  ghost function BuiltManifest(env: Env, source: Payload, files: seq<string>): Manifest
    requires Buildable(env, source, files)
  {
    Manifest(UPDATE_SCHEMA, env.version(env.initVersion(source[INIT]).value).value, EntriesFor(env, source, files))
  }

  /** All collected files, sorted. */
  ghost predicate Collection(source: Payload, files: seq<string>) {
    Lists(files, set rel | rel in source && Collected(rel))
  }

  /** Why a source tree cannot be built, if it cannot. */
  ghost function Refusal(env: Env, source: Payload): Option<BuildError> {
    if exists rel <- source :: Collected(rel) && !Canonical(rel) then Some(BuildBadPath)
    else if exists rel <- RequiredPaths() :: rel !in source || !Collected(rel) then Some(BuildMissingRuntime)
    else if INIT !in source || env.initVersion(source[INIT]).None? then Some(BuildNoVersion)
    else if env.version(env.initVersion(source[INIT]).value).None? then Some(BuildBadVersion)
    else if exists rel <- source :: Collected(rel) && |source[rel]| > MAX_MEMBER_BYTES then Some(BuildTooLarge)
    else None
  }

  /** The package holds every collected file of the tree, once and sorted, behind its manifest. */
  method BuildUpdatePackage(env: Env, source: Payload) returns (r: Result<seq<Member>, BuildError>, ghost files: seq<string>)
    requires forall rel <- source :: Join(Parts(rel)) == rel
    ensures Refusal(env, source) == if r.Err? then Some(r.error) else None
    ensures r.Ok? ==> Collection(source, files) && Buildable(env, source, files) && RequiredPaths() <= set f | f in files
    ensures r.Ok? ==> r.value == MembersFor(env.encode(BuiltManifest(env, source, files)), source, files)
  {
    hide Canonical, Collected, MembersFor, EntriesFor, Distinct, Ascending, RequiredPaths, Join, Parts;
    files := [];
    if exists rel <- source :: Collected(rel) && !Canonical(rel) {
      return Err(BuildBadPath), files;
    }
    var paths := Sort(set rel | rel in source && Collected(rel));
    files := paths;
    if exists p <- RequiredPaths() :: p !in paths {
      return Err(BuildMissingRuntime), files;
    }
    InitIsRequired();
    var init := env.initVersion(source[INIT]);
    if init.None? {
      return Err(BuildNoVersion), files;
    }
    var version := env.version(init.value);
    if version.None? {
      return Err(BuildBadVersion), files;
    }
    var entries := Entries(env, source, paths);
    if entries.Err? {
      return Err(entries.error), files;
    }
    var raw := env.encode(Manifest(UPDATE_SCHEMA, version.value, entries.value));
    var members := Members(raw, source, paths);
    r := Ok(members);
  }

  lemma InitIsRequired()
    ensures INIT in RequiredPaths()
  {
  }

  method Entries(env: Env, source: Payload, paths: seq<string>) returns (r: Result<seq<Entry>, BuildError>)
    requires forall f <- paths :: f in source && Canonical(f)
    ensures r.Ok? ==> r.value == EntriesFor(env, source, paths) && forall f <- paths :: |source[f]| <= MAX_MEMBER_BYTES
    ensures r.Err? ==> r.error == BuildTooLarge && exists f <- paths :: |source[f]| > MAX_MEMBER_BYTES
  {
    hide Canonical, ModeFor;
    var entries: seq<Entry> := [];
    for i := 0 to |paths|
      invariant entries == EntriesFor(env, source, paths[..i])
      invariant forall j :: 0 <= j < i ==> |source[paths[j]]| <= MAX_MEMBER_BYTES
    {
      var data := source[paths[i]];
      if |data| > MAX_MEMBER_BYTES {
        assert paths[i] in paths;
        return Err(BuildTooLarge);
      }
      assert paths[..i + 1][..i] == paths[..i];
      entries := entries + [EntryFor(env, paths[i], data)];
    }
    assert paths[..|paths|] == paths;
    r := Ok(entries);
  }

  method Members(raw: Bytes, source: Payload, paths: seq<string>) returns (members: seq<Member>)
    requires forall f <- paths :: f in source
    ensures members == MembersFor(raw, source, paths)
  {
    members := [Regular(MANIFEST, raw)];
    for i := 0 to |paths|
      invariant members == MembersFor(raw, source, paths[..i])
    {
      assert paths[..i + 1][..i] == paths[..i];
      members := members + [Regular(PAYLOAD + paths[i], source[paths[i]])];
    }
    assert paths[..|paths|] == paths;
  }

  // ---------- Round trip ----------

  lemma {:induction false} ScanBuilt(raw: Bytes, source: Payload, files: seq<string>)
    requires Distinct(files)
    requires forall f <- files :: f in source && Canonical(f) && |source[f]| <= MAX_MEMBER_BYTES
    ensures var s := Scan(MembersFor(raw, source, files));
            if |raw| <= MAX_MEMBER_BYTES && |raw| + DataSize(source, files) <= MAX_UNPACKED_BYTES
            then s == Ok(Scanned(|raw| + DataSize(source, files), Some(raw), Selected(source, files)))
            else s.Err?
  {
    hide Canonical, ScanMember, Regular, Selected, Distinct;
    var members := MembersFor(raw, source, files);
    if files == [] {
      assert members[..0] == [];
      SelectedNothing(source);
      ScanHead(raw);
    } else {
      var init, f := files[..|files| - 1], files[|files| - 1];
      DistinctLast(files);
      ScanBuilt(raw, source, init);
      assert members[..|members| - 1] == MembersFor(raw, source, init);
      assert f in files;
      SelectedStep(source, init, f);
      assert files == init + [f];
      var s := Scan(MembersFor(raw, source, init));
      if s.Ok? {
        ScanPayload(f, source[f], s.value);
      }
    }
  }

  lemma ScanHead(raw: Bytes)
    ensures var s := ScanMember(Regular(MANIFEST, raw), Scanned(0, None, map[]));
            if |raw| <= MAX_MEMBER_BYTES then s == Ok(Scanned(|raw|, Some(raw), map[])) else s.Err?
  {
  }

  lemma ScanPayload(f: string, data: Bytes, s: Scanned)
    requires Canonical(f) && f !in s.payload && |data| <= MAX_MEMBER_BYTES
    ensures ScanMember(Regular(PAYLOAD + f, data), s)
            == if s.unpacked + |data| > MAX_UNPACKED_BYTES then Err(TooMuchData)
               else Ok(s.(unpacked := s.unpacked + |data|, payload := s.payload[f := data]))
  {
    hide SafeLogicalPath;
    PayloadName(f);
  }

  lemma SelectedNothing(source: Payload)
    ensures Selected(source, []) == map[]
  {
  }

  lemma DistinctLast(files: seq<string>)
    requires files != [] && Distinct(files)
    ensures Distinct(files[..|files| - 1]) && files[|files| - 1] !in files[..|files| - 1]
  {
  }

  lemma SelectedStep(source: Payload, init: seq<string>, f: string)
    requires (forall g <- init :: g in source) && f in source
    ensures forall g <- init + [f] :: g in source
    ensures Selected(source, init + [f]) == Selected(source, init)[f := source[f]]
    ensures f !in init ==> f !in Selected(source, init)
  {
  }

  lemma PayloadName(f: string)
    ensures PAYLOAD <= PAYLOAD + f && (PAYLOAD + f)[|PAYLOAD|..] == f && PAYLOAD + f != MANIFEST
  {
    assert (PAYLOAD + f)[0] == 'p';
  }

  lemma {:induction false} MembersCount(raw: Bytes, source: Payload, files: seq<string>)
    requires forall f <- files :: f in source
    ensures |MembersFor(raw, source, files)| == |files| + 1
  {
    if files != [] {
      MembersCount(raw, source, files[..|files| - 1]);
    }
  }

  lemma EntryForFits(env: Env, f: string, payload: Payload)
    requires Sound(env) && f in payload && Canonical(f)
    ensures EntryFits(env, EntryFor(env, f, payload[f]), payload)
    ensures SafeLogicalPath(EntryFor(env, f, payload[f]).path) == Ok(f)
  {
    hide SafeLogicalPath, IsScript;
  }

  lemma BuiltIsDescribed(env: Env, source: Payload, files: seq<string>)
    requires Sound(env) && Buildable(env, source, files)
    ensures Describes(env, BuiltManifest(env, source, files), Selected(source, files))
  {
    hide Canonical, SafeLogicalPath, EntryFits, EntryFor, EntriesFor, Sound;
    var m, payload := BuiltManifest(env, source, files), Selected(source, files);
    EntriesForAt(env, source, files);
    forall i | 0 <= i < |files|
      ensures EntryFits(env, m.files[i], payload) && SafeLogicalPath(m.files[i].path) == Ok(files[i])
    {
      assert files[i] in files;
      EntryForFits(env, files[i], payload);
    }
    DeclaredFiles(m.files, files);
    assert payload.Keys == set f | f in files;
  }

  lemma DeclaredFiles(entries: seq<Entry>, files: seq<string>)
    requires |entries| == |files| && Distinct(files)
    requires forall i :: 0 <= i < |files| ==> SafeLogicalPath(entries[i].path) == Ok(files[i])
    ensures DistinctPaths(entries) && (forall e <- entries :: SafeLogicalPath(e.path).Ok?)
    ensures Declared(entries) == set f | f in files
  {
    hide SafeLogicalPath;
    forall f <- files ensures f in Declared(entries) {
      var i :| 0 <= i < |files| && files[i] == f;
      assert entries[i] in entries;
    }
  }

  /** The limits that the reader checks and the builder does not. */
  ghost predicate WithinLimits(env: Env, size: nat, source: Payload, files: seq<string>)
    requires Buildable(env, source, files)
  {
    var raw := env.encode(BuiltManifest(env, source, files));
    && 0 < size <= MAX_PACKAGE_BYTES && |files| <= MAX_PACKAGE_FILES
    && |raw| <= MAX_MEMBER_BYTES && |raw| + DataSize(source, files) <= MAX_UNPACKED_BYTES
    && env.version(env.initVersion(source[INIT]).value) == env.initVersion(source[INIT])
  }

  /** A built package reads back as its manifest and exactly the files it was built from if it keeps to the
      limits of the reader; otherwise it is refused. */
  lemma PackageRoundTrip(env: Env, size: nat, source: Payload, files: seq<string>)
    requires Sound(env) && Buildable(env, source, files) && RequiredPaths() <= set f | f in files
    ensures var m := BuiltManifest(env, source, files);
            var r := Read(env, Archive(size, MembersFor(env.encode(m), source, files)));
            if WithinLimits(env, size, source, files) then r == Ok((m, Selected(source, files))) else r.Err?
  {
    hide SafeLogicalPath, Scan, MembersFor, DataSize, CheckEntries, Distinct, DistinctPaths, EntryFits;
    var m, payload := BuiltManifest(env, source, files), Selected(source, files);
    var raw := env.encode(m);
    ScanBuilt(raw, source, files);
    MembersCount(raw, source, files);
    BuiltIsDescribed(env, source, files);
    EntriesFit(env, m.files, payload);
    assert env.decode(raw) == Some(m);
    assert RequiredPaths() <= payload.Keys by {
      forall p | p in RequiredPaths() ensures p in payload {
        assert p in set f | f in files;
      }
    }
  }
}
