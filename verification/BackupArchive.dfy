/**
 Configuration backups (backup.py: `create_backup`, `_read_archive`, `restore_backup`). Files are keyed by
 their names in the archive. SHA-256, JSON, gzip sizes and the checks of file contents come from outside.
 */
module BackupArchive {
  import opened Wrappers
  import opened Bits
  import opened Names
  import opened UpdatePackage

  const BACKUP_SCHEMA := "ge360-bridge-config-backup/v1"
  const MAX_ARCHIVE_BYTES: nat := 8388608
  const MAX_FILE_BYTES: nat := 2097152

  function RequiredNames(): set<string> {
    {"state/devices.json", "state/resources.json", "state/services.json", "state/groups.json", "state/bridge.env",
     "state/server.key", "state/server.pub", "state/dashboard.token", "state/enrollment.key",
     "state/pairing-tls.key", "state/pairing-tls.crt", "wireguard/wg0.conf"}
  }

  function OptionalNames(): set<string> {
    {"state/relay.token", "state/servers.json", "state/server-id", "state/server.token",
     "state/multi-server-tls.key", "state/multi-server-tls.crt"}
  }

  function AllowedNames(): set<string> {
    RequiredNames() + OptionalNames()
  }

  datatype Declared = Declared(name: string, size: int, digest: string)

  /** `info` stands for the fields that no check looks at. */
  datatype BackupManifest = BackupManifest(schema: string, clientKeys: Option<bool>, files: seq<Declared>, info: string)

  datatype BackupEnv = BackupEnv(sha: Bytes -> string,
                                 encode: BackupManifest -> Bytes,
                                 decode: Bytes -> Option<BackupManifest>,
                                 contentsValid: Payload -> bool)

  ghost predicate ReadsBack(env: BackupEnv) {
    forall m :: env.decode(env.encode(m)) == Some(m)
  }

  datatype BackupError =
    | ArchiveTooLarge
    | NotRegular
    | DuplicateMember
    | NotPermitted
    | FileTooLarge
    | WrongLength
    | ManifestMissing
    | ManifestInvalid
    | WrongSchema
    | KeysNotExcluded
    | WrongName
    | DeclaredAbsent
    | WrongSize
    | WrongDigest
    | NotDeclared
    | SnapshotInvalid
    | SourceMissing
    | AlreadyExists
    | NotFound
    | BadRetention
    | PruneFailed
    | Vanished
    | WriteFailed

  predicate ValidSnapshot(env: BackupEnv, files: Payload) {
    RequiredNames() <= files.Keys <= AllowedNames() && env.contentsValid(files)
  }

  /** A snapshot has every required file, perhaps optional ones, and no others, all with valid contents. */
  lemma SnapshotMeans(env: BackupEnv, files: Payload)
    ensures ValidSnapshot(env, files)
            <==> ((forall n <- RequiredNames() :: n in files) && (forall n <- files :: n in RequiredNames() || n in OptionalNames())
                  && env.contentsValid(files))
  {
    hide RequiredNames, OptionalNames;
  }

  // ---------- Reading ----------

  function AddMember(m: Member, members: Payload): Result<Payload, BackupError> {
    if !m.regular then Err(NotRegular)
    else if m.name in members then Err(DuplicateMember)
    else if m.name != MANIFEST && m.name !in AllowedNames() then Err(NotPermitted)
    else if m.size < 0 || m.size > MAX_FILE_BYTES then Err(FileTooLarge)
    else if |m.data| != m.size then Err(WrongLength)
    else Ok(members[m.name := m.data])
  }

  function AddMembers(all: seq<Member>): Result<Payload, BackupError> {
    if all == [] then Ok(map[])
    else
      match AddMembers(all[..|all| - 1])
      case Err(e) => Err(e)
      case Ok(members) => AddMember(all[|all| - 1], members)
  }

  function CheckDeclared(env: BackupEnv, d: Declared, names: set<string>, files: Payload): Option<BackupError> {
    if d.name in names || d.name !in AllowedNames() then Some(WrongName)
    else if d.name !in files then Some(DeclaredAbsent)
    else if d.size != |files[d.name]| then Some(WrongSize)
    else if d.digest != env.sha(files[d.name]) then Some(WrongDigest)
    else None
  }

  function CheckAllDeclared(env: BackupEnv, declared: seq<Declared>, files: Payload): Result<set<string>, BackupError> {
    if declared == [] then Ok({})
    else
      match CheckAllDeclared(env, declared[..|declared| - 1], files)
      case Err(e) => Err(e)
      case Ok(names) =>
        match CheckDeclared(env, declared[|declared| - 1], names, files)
        case Some(e) => Err(e)
        case None => Ok(names + {declared[|declared| - 1].name})
  }

  function ReadArchive(env: BackupEnv, a: Archive): Result<(BackupManifest, Payload), BackupError> {
    if a.size > MAX_ARCHIVE_BYTES then Err(ArchiveTooLarge)
    else
      match AddMembers(a.members)
      case Err(e) => Err(e)
      case Ok(members) =>
        if MANIFEST !in members then Err(ManifestMissing)
        else
          var files := members - {MANIFEST};
          match env.decode(members[MANIFEST])
          case None => Err(ManifestInvalid)
          case Some(m) =>
            if m.schema != BACKUP_SCHEMA then Err(WrongSchema)
            else if m.clientKeys != Some(false) then Err(KeysNotExcluded)
            else
              match CheckAllDeclared(env, m.files, files)
              case Err(e) => Err(e)
              case Ok(names) =>
                if names != files.Keys then Err(NotDeclared)
                else if !ValidSnapshot(env, files) then Err(SnapshotInvalid)
                else Ok((m, files))
  }

  method AddAllMembers(all: seq<Member>) returns (r: Result<Payload, BackupError>)
    ensures r == AddMembers(all)
  {
    hide AllowedNames, AddMember;
    var members: Payload := map[];
    for i := 0 to |all|
      invariant AddMembers(all[..i]) == Ok(members)
    {
      assert all[..i + 1][..i] == all[..i];
      var next := AddMember(all[i], members);
      if next.Err? {
        AddFails(all, i + 1);
        return next;
      }
      members := next.value;
    }
    assert all[..|all|] == all;
    r := Ok(members);
  }

  lemma {:induction false} AddFails(all: seq<Member>, n: nat)
    requires n <= |all| && AddMembers(all[..n]).Err?
    ensures AddMembers(all) == AddMembers(all[..n])
  {
    hide AddMember;
    if n == |all| {
      assert all[..n] == all;
    } else {
      assert all[..|all| - 1][..n] == all[..n];
      AddFails(all[..|all| - 1], n);
    }
  }

  method CheckEachDeclared(env: BackupEnv, declared: seq<Declared>, files: Payload) returns (r: Result<set<string>, BackupError>)
    ensures r == CheckAllDeclared(env, declared, files)
  {
    hide AllowedNames, CheckDeclared;
    var names: set<string> := {};
    for i := 0 to |declared|
      invariant CheckAllDeclared(env, declared[..i], files) == Ok(names)
    {
      assert declared[..i + 1][..i] == declared[..i];
      var wrong := CheckDeclared(env, declared[i], names, files);
      if wrong.Some? {
        DeclaredFails(env, declared, files, i + 1);
        return Err(wrong.value);
      }
      names := names + {declared[i].name};
    }
    assert declared[..|declared|] == declared;
    r := Ok(names);
  }

  lemma {:induction false} DeclaredFails(env: BackupEnv, declared: seq<Declared>, files: Payload, n: nat)
    requires n <= |declared| && CheckAllDeclared(env, declared[..n], files).Err?
    ensures CheckAllDeclared(env, declared, files) == CheckAllDeclared(env, declared[..n], files)
  {
    hide CheckDeclared;
    if n == |declared| {
      assert declared[..n] == declared;
    } else {
      assert declared[..|declared| - 1][..n] == declared[..n];
      DeclaredFails(env, declared[..|declared| - 1], files, n);
    }
  }

  method ReadBackup(env: BackupEnv, a: Archive) returns (r: Result<(BackupManifest, Payload), BackupError>)
    ensures r == ReadArchive(env, a)
  {
    hide AddMembers, CheckAllDeclared, ValidSnapshot;
    if a.size > MAX_ARCHIVE_BYTES {
      return Err(ArchiveTooLarge);
    }
    var members := AddAllMembers(a.members);
    if members.Err? {
      return Err(members.error);
    }
    if MANIFEST !in members.value {
      return Err(ManifestMissing);
    }
    var files := members.value - {MANIFEST};
    var manifest := env.decode(members.value[MANIFEST]);
    if manifest.None? {
      return Err(ManifestInvalid);
    }
    var m := manifest.value;
    if m.schema != BACKUP_SCHEMA {
      return Err(WrongSchema);
    }
    if m.clientKeys != Some(false) {
      return Err(KeysNotExcluded);
    }
    var names := CheckEachDeclared(env, m.files, files);
    if names.Err? {
      return Err(names.error);
    }
    if names.value != files.Keys {
      return Err(NotDeclared);
    }
    if !ValidSnapshot(env, files) {
      return Err(SnapshotInvalid);
    }
    r := Ok((m, files));
  }

  // ---------- What acceptance means ----------

  /** A regular member of at most two mebibytes, with all its bytes, that is the manifest or a permitted file. */
  ghost predicate FileFits(m: Member) {
    && m.regular && 0 <= m.size <= 2097152 && |m.data| == m.size
    && (m.name == "manifest.json" || m.name in AllowedNames())
  }

  ghost predicate Packed(all: seq<Member>) {
    (forall m <- all :: FileFits(m)) && forall i, j :: 0 <= i < j < |all| ==> all[i].name != all[j].name
  }

  ghost predicate Unpacks(all: seq<Member>, members: Payload) {
    && (forall m <- all :: m.name in members && members[m.name] == m.data)
    && forall name <- members :: exists m <- all :: m.name == name
  }

  lemma PackedMore(init: seq<Member>, m: Member, members: Payload)
    requires Unpacks(init, members)
    ensures Packed(init + [m]) <==> Packed(init) && FileFits(m) && m.name !in members
  {
    hide FileFits;
    var all := init + [m];
    assert all[|init|] == m && forall i | 0 <= i < |init| :: all[i] == init[i] && init[i] in init;
    assert forall x :: x in all <==> x in init || x == m;
    if m.name in members {
      var x :| x in init && x.name == m.name;
      var i :| 0 <= i < |init| && init[i] == x;
      assert all[i].name == all[|init|].name;
    }
  }

  lemma UnpacksMore(init: seq<Member>, m: Member, members: Payload)
    requires Unpacks(init, members) && m.name !in members
    ensures Unpacks(init + [m], members[m.name := m.data])
  {
    var all := init + [m];
    assert forall x :: x in all <==> x in init || x == m;
    forall name | name in members ensures exists x <- all :: x.name == name {
      var x :| x in init && x.name == name;
      assert x in all;
    }
    assert m in all;
  }

  lemma PackedInit(init: seq<Member>, m: Member)
    requires Packed(init + [m])
    ensures Packed(init)
  {
    hide FileFits;
    assert forall i | 0 <= i < |init| :: (init + [m])[i] == init[i];
    assert forall x <- init :: x in init + [m];
  }

  lemma AddMemberMeans(m: Member, members: Payload)
    ensures AddMember(m, members).Ok? <==> FileFits(m) && m.name !in members
    ensures AddMember(m, members).Ok? ==> AddMember(m, members).value == members[m.name := m.data]
  {
    hide AllowedNames;
  }

  /** The cause of each refusal of a member. */
  lemma FileRefusals(m: Member, members: Payload)
    ensures match AddMember(m, members)
            case Ok(_) => true
            case Err(NotRegular) => !m.regular
            case Err(DuplicateMember) => m.name in members
            case Err(NotPermitted) => m.name != "manifest.json" && m.name !in AllowedNames()
            case Err(FileTooLarge) => m.size < 0 || m.size > 2097152
            case Err(WrongLength) => |m.data| != m.size
            case Err(_) => false
  {
    hide AllowedNames;
  }

  /** The cause of each refusal of an entry of the manifest. */
  lemma DeclaredRefusals(env: BackupEnv, d: Declared, names: set<string>, files: Payload)
    ensures match CheckDeclared(env, d, names, files)
            case None => true
            case Some(WrongName) => d.name in names || d.name !in AllowedNames()
            case Some(DeclaredAbsent) => d.name !in files
            case Some(WrongSize) => d.name in files && d.size != |files[d.name]|
            case Some(WrongDigest) => d.name in files && d.digest != env.sha(files[d.name])
            case Some(_) => false
  {
    hide AllowedNames;
  }

  /** The loop over the members passes exactly when every member fits and no name comes twice; it gives their data. */
  lemma {:induction false} AddMembersMeans(all: seq<Member>)
    ensures AddMembers(all).Ok? <==> Packed(all)
    ensures AddMembers(all).Ok? ==> Unpacks(all, AddMembers(all).value)
  {
    hide AddMember, FileFits, Packed, Unpacks;
    if all == [] {
      NothingPacked();
    } else {
      var init, m := all[..|all| - 1], all[|all| - 1];
      assert all == init + [m];
      AddMembersMeans(init);
      if AddMembers(init).Ok? {
        PackedMore(init, m, AddMembers(init).value);
        if m.name !in AddMembers(init).value {
          UnpacksMore(init, m, AddMembers(init).value);
        }
        AddMemberMeans(m, AddMembers(init).value);
      } else if Packed(all) {
        PackedInit(init, m);
      }
    }
  }

  lemma NothingPacked()
    ensures Packed([]) && Unpacks([], map[])
  {
  }

  ghost predicate DeclaredFits(env: BackupEnv, d: Declared, files: Payload) {
    d.name in AllowedNames() && d.name in files && d.size == |files[d.name]| && d.digest == env.sha(files[d.name])
  }

  ghost function NamesOf(declared: seq<Declared>): set<string> {
    set d | d in declared :: d.name
  }

  ghost predicate DistinctNames(declared: seq<Declared>) {
    forall i, j :: 0 <= i < j < |declared| ==> declared[i].name != declared[j].name
  }

  lemma NamesStep(init: seq<Declared>, d: Declared)
    ensures NamesOf(init + [d]) == NamesOf(init) + {d.name}
    ensures DistinctNames(init + [d]) <==> DistinctNames(init) && d.name !in NamesOf(init)
  {
    var all := init + [d];
    assert all[|init|] == d;
    assert forall i | 0 <= i < |init| :: all[i] == init[i] && init[i] in init;
    if DistinctNames(all) {
      forall e <- init ensures e.name != d.name {
        var i :| 0 <= i < |init| && init[i] == e;
        assert all[i].name != all[|init|].name;
      }
    }
  }

  lemma DeclaredCheck(env: BackupEnv, d: Declared, names: set<string>, files: Payload)
    ensures CheckDeclared(env, d, names, files).None? <==> DeclaredFits(env, d, files) && d.name !in names
  {
    hide AllowedNames;
  }

  /** The manifest loop passes exactly when every entry fits its file and no name is declared twice. */
  lemma {:induction false} DeclaredFit(env: BackupEnv, declared: seq<Declared>, files: Payload)
    ensures CheckAllDeclared(env, declared, files).Ok?
            <==> (forall d <- declared :: DeclaredFits(env, d, files)) && DistinctNames(declared)
    ensures CheckAllDeclared(env, declared, files).Ok? ==> CheckAllDeclared(env, declared, files).value == NamesOf(declared)
  {
    hide AllowedNames, DistinctNames, NamesOf, CheckDeclared, DeclaredFits;
    if declared == [] {
      NothingDeclared();
    } else {
      var init, d := declared[..|declared| - 1], declared[|declared| - 1];
      assert declared == init + [d] && d in declared;
      DeclaredFit(env, init, files);
      NamesStep(init, d);
      DeclaredCheck(env, d, NamesOf(init), files);
      assert forall e <- declared :: e in init || e == d;
      assert forall e <- init :: e in declared;
    }
  }

  lemma NothingDeclared()
    ensures NamesOf([]) == {} && DistinctNames([])
  {
  }

  ghost predicate Accounts(env: BackupEnv, m: BackupManifest, files: Payload) {
    (forall d <- m.files :: DeclaredFits(env, d, files)) && DistinctNames(m.files) && files.Keys == NamesOf(m.files)
  }

  /** The files of an accepted archive are exactly those of its manifest, complete, permitted and intact. */
  lemma AcceptedAccounts(env: BackupEnv, a: Archive)
    requires ReadArchive(env, a).Ok?
    ensures var (m, files) := ReadArchive(env, a).value;
            Accounts(env, m, files) && RequiredNames() <= files.Keys <= AllowedNames() && m.clientKeys == Some(false)
  {
    hide AddMembers, RequiredNames, AllowedNames, CheckAllDeclared;
    var (m, files) := ReadArchive(env, a).value;
    DeclaredFit(env, m.files, files);
  }

  /** An archive is accepted with this manifest and these files exactly if it keeps to the limits, its members are the
      manifest and the files, the manifest is of the known schema, leaves out the client keys and accounts for the
      files, and they form a valid snapshot. */
  lemma ReadArchiveMeans(env: BackupEnv, a: Archive, m: BackupManifest, files: Payload)
    ensures ReadArchive(env, a) == Ok((m, files))
            <==> (a.size <= 8388608 && Packed(a.members) && "manifest.json" !in files
                  && (exists raw :: env.decode(raw) == Some(m) && Unpacks(a.members, files["manifest.json" := raw]))
                  && m.schema == "ge360-bridge-config-backup/v1" && m.clientKeys == Some(false)
                  && Accounts(env, m, files) && ValidSnapshot(env, files))
  {
    hide AddMembers, Packed, Unpacks, ValidSnapshot, CheckAllDeclared, DeclaredFits, DistinctNames, NamesOf;
    AddMembersMeans(a.members);
    DeclaredFit(env, m.files, files);
    if AddMembers(a.members).Ok? {
      var members := AddMembers(a.members).value;
      if ReadArchive(env, a) == Ok((m, files)) {
        assert members == files["manifest.json" := members["manifest.json"]];
      }
      if raw :| env.decode(raw) == Some(m) && Unpacks(a.members, files["manifest.json" := raw]) && "manifest.json" !in files {
        UnpacksOnce(a.members, members, files["manifest.json" := raw]);
        assert members - {"manifest.json"} == files;
      }
    }
  }

  /** The cause of each refusal of an archive whose members can be read and whose entries fit. */
  lemma ArchiveRefusals(env: BackupEnv, a: Archive, files: Payload, raw: Bytes, m: BackupManifest)
    requires Packed(a.members) && Unpacks(a.members, files["manifest.json" := raw]) && "manifest.json" !in files
    requires env.decode(raw) == Some(m) && CheckAllDeclared(env, m.files, files).Ok?
    ensures match ReadArchive(env, a)
            case Ok(_) => true
            case Err(ArchiveTooLarge) => a.size > 8388608
            case Err(WrongSchema) => m.schema != "ge360-bridge-config-backup/v1"
            case Err(KeysNotExcluded) => m.clientKeys != Some(false)
            case Err(NotDeclared) => exists n <- files :: forall d <- m.files :: d.name != n
            case Err(SnapshotInvalid) => !ValidSnapshot(env, files)
            case Err(_) => false
  {
    hide AddMembers, Packed, Unpacks, ValidSnapshot, CheckAllDeclared, DistinctNames;
    AddMembersMeans(a.members);
    UnpacksOnce(a.members, AddMembers(a.members).value, files["manifest.json" := raw]);
    DeclaredFit(env, m.files, files);
    assert files["manifest.json" := raw] - {"manifest.json"} == files;
    if NamesOf(m.files) != files.Keys {
      assert NamesOf(m.files) <= files.Keys;
    }
  }

  /** Without a manifest that can be decoded there is no backup. */
  lemma NoManifestIsRefused(env: BackupEnv, a: Archive, members: Payload)
    requires a.size <= 8388608 && Packed(a.members) && Unpacks(a.members, members)
    ensures "manifest.json" !in members ==> ReadArchive(env, a) == Err(ManifestMissing)
    ensures "manifest.json" in members && env.decode(members["manifest.json"]).None? ==> ReadArchive(env, a) == Err(ManifestInvalid)
  {
    hide AddMembers, Packed, Unpacks, ValidSnapshot, CheckAllDeclared;
    AddMembersMeans(a.members);
    UnpacksOnce(a.members, AddMembers(a.members).value, members);
  }

  lemma UnpacksOnce(all: seq<Member>, p: Payload, q: Payload)
    requires Unpacks(all, p) && Unpacks(all, q)
    ensures p == q
  {
    assert p.Keys == q.Keys;
    forall name | name in p ensures p[name] == q[name] {
      var m :| m in all && m.name == name;
    }
  }

  /** Under an injective hash the manifest determines the files. */
  lemma ManifestDeterminesFiles(env: BackupEnv, a: Archive, b: Archive)
    requires InjectiveHash(env.sha) && ReadArchive(env, a).Ok? && ReadArchive(env, b).Ok?
    requires ReadArchive(env, a).value.0.files == ReadArchive(env, b).value.0.files
    ensures ReadArchive(env, a).value.1 == ReadArchive(env, b).value.1
  {
    hide ReadArchive, RequiredNames, AllowedNames;
    AcceptedAccounts(env, a);
    AcceptedAccounts(env, b);
    var m, p, q := ReadArchive(env, a).value.0, ReadArchive(env, a).value.1, ReadArchive(env, b).value.1;
    forall name | name in p ensures p[name] == q[name] {
      var d :| d in m.files && d.name == name;
      assert DeclaredFits(env, d, p) && DeclaredFits(env, d, q);
    }
  }

  // ---------- Writing ----------

  function DeclaredFor(env: BackupEnv, files: Payload, names: seq<string>): seq<Declared>
    requires forall n <- names :: n in files
  {
    if names == [] then []
    else
      var n := names[|names| - 1];
      DeclaredFor(env, files, names[..|names| - 1]) + [Declared(n, |files[n]|, env.sha(files[n]))]
  }

  function TarOf(raw: Bytes, files: Payload, names: seq<string>): seq<Member>
    requires forall n <- names :: n in files
  {
    if names == [] then [Regular(MANIFEST, raw)]
    else
      var n := names[|names| - 1];
      TarOf(raw, files, names[..|names| - 1]) + [Regular(n, files[n])]
  }

  function ManifestOf(env: BackupEnv, files: Payload, names: seq<string>, info: string): BackupManifest
    requires forall n <- names :: n in files
  {
    BackupManifest(BACKUP_SCHEMA, Some(false), DeclaredFor(env, files, names), info)
  }

  /** What `_snapshot_sources` hands to the writer. */
  ghost predicate Capturable(env: BackupEnv, files: Payload) {
    ValidSnapshot(env, files) && forall n <- files :: |files[n]| <= MAX_FILE_BYTES
  }

  lemma {:induction false} DeclaredForAccounts(env: BackupEnv, files: Payload, names: seq<string>)
    requires Distinct(names) && forall n <- names :: n in files && n in AllowedNames()
    ensures var declared := DeclaredFor(env, files, names);
            && (forall d <- declared :: DeclaredFits(env, d, files)) && DistinctNames(declared)
            && NamesOf(declared) == set n | n in names
  {
    hide AllowedNames, DistinctNames, NamesOf;
    if names == [] {
      NothingDeclared();
    } else {
      var init, n := names[..|names| - 1], names[|names| - 1];
      DistinctLast(names);
      DeclaredForAccounts(env, files, init);
      NamesStep(DeclaredFor(env, files, init), Declared(n, |files[n]|, env.sha(files[n])));
      assert names == init + [n];
    }
  }

  lemma {:induction false} TarReadsBack(raw: Bytes, files: Payload, names: seq<string>)
    requires Distinct(names)
    requires forall n <- names :: n in files && n in AllowedNames() && |files[n]| <= MAX_FILE_BYTES
    ensures AddMembers(TarOf(raw, files, names))
            == if |raw| <= MAX_FILE_BYTES then Ok(Selected(files, names)[MANIFEST := raw]) else Err(FileTooLarge)
  {
    hide AllowedNames, Selected, Distinct;
    var all := TarOf(raw, files, names);
    if names == [] {
      SelectedNothing(files);
      assert all[..0] == [];
    } else {
      var init, n := names[..|names| - 1], names[|names| - 1];
      DistinctLast(names);
      TarReadsBack(raw, files, init);
      assert all[..|all| - 1] == TarOf(raw, files, init);
      assert names == init + [n] && n in names;
      SelectedStep(files, init, n);
      ManifestIsNoFile(n);
      assert Selected(files, init)[MANIFEST := raw][n := files[n]] == Selected(files, names)[MANIFEST := raw];
    }
  }

  lemma ManifestIsNoFile(n: string)
    requires n in AllowedNames()
    ensures n != MANIFEST
  {
  }

  // ---------- The size of a manifest ----------

  const MAX_INFO: nat := 65536

  ghost predicate IsDigest(text: string) {
    |text| == 64 && forall c <- text :: '0' <= c <= '9' || 'a' <= c <= 'f'
  }

  /** An entry as the writer makes it. */
  ghost predicate Modest(d: Declared) {
    d.name in AllowedNames() && IsDigest(d.digest) && 0 <= d.size <= MAX_FILE_BYTES
  }

  /** Digests are hexadecimal, and JSON needs a bounded number of bytes for the frame of a manifest, for each such
      entry and for each character of the other fields. */
  ghost predicate Compact(env: BackupEnv) {
    && (forall data :: IsDigest(env.sha(data)))
    && forall m: BackupManifest ::
         m.schema == BACKUP_SCHEMA && (forall d <- m.files :: Modest(d)) ==>
           |env.encode(m)| <= 4096 + 512 * |m.files| + 12 * |m.info|
  }

  lemma {:induction false} DeclaredForModest(env: BackupEnv, files: Payload, names: seq<string>)
    requires Compact(env) && forall n <- names :: n in files && n in AllowedNames() && |files[n]| <= MAX_FILE_BYTES
    ensures |DeclaredFor(env, files, names)| == |names|
    ensures forall d <- DeclaredFor(env, files, names) :: Modest(d)
  {
    hide AllowedNames, IsDigest;
    if names != [] {
      DeclaredForModest(env, files, names[..|names| - 1]);
    }
  }

  lemma AllowedAreFew()
    ensures |AllowedNames()| <= 18
  {
    RequiredAreFew();
    OptionalAreFew();
    hide RequiredNames, OptionalNames;
    UnionCount(RequiredNames(), OptionalNames());
  }

  lemma UnionCount(a: set<string>, b: set<string>)
    ensures |a + b| <= |a| + |b|
  {
  }

  lemma RequiredAreFew()
    ensures |RequiredNames()| <= 12
  {
  }

  lemma OptionalAreFew()
    ensures |OptionalNames()| <= 6
  {
  }

  lemma {:induction false} ListIsSmall(names: seq<string>, s: set<string>)
    requires Distinct(names) && forall n <- names :: n in s
    ensures |names| <= |s|
  {
    if names != [] {
      var init, n := names[..|names| - 1], names[|names| - 1];
      ListIsSmall(init, s - {n});
    }
  }

  /** The manifest of a backup stays far below the size limit of a file. */
  lemma ManifestIsSmall(env: BackupEnv, files: Payload, names: seq<string>, info: string)
    requires Compact(env) && Capturable(env, files) && Lists(names, files.Keys) && |info| <= MAX_INFO
    ensures |env.encode(ManifestOf(env, files, names, info))| <= MAX_FILE_BYTES
  {
    hide AllowedNames, RequiredNames, Ascending, Distinct, DeclaredFor, Modest;
    AllowedAreFew();
    AscendingIsDistinct(names);
    assert forall n <- names :: n in files.Keys && n in AllowedNames();
    ListIsSmall(names, AllowedNames());
    DeclaredForModest(env, files, names);
  }

  /** Every backup of a capturable configuration reads back as its manifest and exactly the captured files. */
  lemma BackupRoundTrip(env: BackupEnv, files: Payload, names: seq<string>, info: string, size: nat)
    requires ReadsBack(env) && Compact(env) && Capturable(env, files) && Lists(names, files.Keys)
    requires |info| <= MAX_INFO && size <= MAX_ARCHIVE_BYTES
    ensures var m := ManifestOf(env, files, names, info);
            ReadArchive(env, Archive(size, TarOf(env.encode(m), files, names))) == Ok((m, files))
  {
    hide AllowedNames, RequiredNames, AddMembers, TarOf, CheckAllDeclared, DistinctNames, NamesOf, Ascending, Distinct;
    var m := ManifestOf(env, files, names, info);
    var raw := env.encode(m);
    assert forall n <- names :: n in files.Keys && n in AllowedNames();
    AscendingIsDistinct(names);
    ManifestIsSmall(env, files, names, info);
    TarReadsBack(raw, files, names);
    DeclaredForAccounts(env, files, names);
    assert env.decode(raw) == Some(m);
    assert Selected(files, names) == files;
    assert MANIFEST !in files by {
      if MANIFEST in files.Keys {
        ManifestIsNoFile(MANIFEST);
      }
    }
    assert files[MANIFEST := raw] - {MANIFEST} == files;
    DeclaredFit(env, m.files, files);
    assert (set n | n in names) == files.Keys;
  }
}
