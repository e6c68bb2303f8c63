/**
 Updates within the limits that are checked when they are written and beyond those that are checked when they are
 read (update_engine.py): sixteen files of the largest permitted size.
 */
module UpdateLimits {
  import opened Wrappers
  import opened Bits
  import opened Names
  import opened UpdatePaths
  import opened UpdatePackage
  import opened UpdateRollback
  import opened UpdateHost
  import opened UpdateEngine
  import Retention

  // ---------- Sixteen paths ----------

  function Module(stem: string): string {
    "ge360_bridge/" + stem + ".py"
  }

  lemma ModuleIsCanonical(stem: string)
    requires stem != "" && forall c <- stem :: WordChar(c)
    ensures Canonical(Module(stem)) && Collected(Module(stem))
  {
    var file := stem + ".py";
    var parts := ["ge360_bridge", file];
    assert Piece(file) && Piece("ge360_bridge") by {
      assert |file| >= 4;
    }
    JoinTwo(parts);
    assert Module(stem) == Join(parts);
    PartsOfJoin(parts);
    ModuleParts(stem, file);
    hide Parts, Join, Split, Kept;
    assert parts[1..] == [file];
    assert ".." !in parts && '\\' !in Module(stem);
  }

  lemma ModuleParts(stem: string, file: string)
    requires stem != "" && (forall c <- stem :: WordChar(c)) && file == stem + ".py"
    ensures ModulePart(file) && IsModule(Module(stem)) && EndsWith(Module(stem), ".py") && '\\' !in Module(stem)
  {
    assert file[..|file| - 3] == stem && file[|file| - 3..] == ".py";
    var m := Module(stem);
    assert m[|m| - 3..] == ".py";
  }

  lemma WrapperText()
    ensures WRAPPER != "" && WRAPPER[0] != '/' && WRAPPER != ".." && '\\' !in WRAPPER && Piece(WRAPPER)
    ensures !IsModule(WRAPPER) && IsScript(WRAPPER)
  {
    assert WRAPPER[5] == '-';
  }

  lemma WrapperIsCanonical()
    ensures Canonical(WRAPPER) && Collected(WRAPPER)
  {
    WrapperText();
    ScriptIsCanonical(WRAPPER);
  }

  lemma ScriptIsCanonical(name: string)
    requires name != "" && name[0] != '/' && name != ".." && '\\' !in name && Piece(name) && !IsModule(name) && IsScript(name)
    ensures Canonical(name) && Collected(name)
  {
    var parts := [name];
    PartsOfJoin(parts);
    assert Join(parts) == name && ".." !in parts;
    hide Parts, Join, Split, Kept, IsModule, IsScript, UnitName, ModulePart, EndsWith;
  }

  lemma ModuleNames()
    ensures Module("__init__") == INIT
    ensures Module("cli") == "ge360_bridge/cli.py"
    ensures Module("core") == "ge360_bridge/core.py"
  {
  }

  lemma ModuleNamesToo()
    ensures Module("daemon") == "ge360_bridge/daemon.py"
    ensures Module("dashboard") == "ge360_bridge/dashboard.py"
    ensures Module("pairing_server") == "ge360_bridge/pairing_server.py"
  {
  }

  lemma RequiredAreCanonical()
    ensures forall p <- RequiredPaths() :: Canonical(p) && Collected(p)
  {
    hide Canonical, Collected, Module;
    ModuleNames();
    ModuleNamesToo();
    ModuleIsCanonical("__init__");
    ModuleIsCanonical("cli");
    ModuleIsCanonical("core");
    ModuleIsCanonical("daemon");
    ModuleIsCanonical("dashboard");
    ModuleIsCanonical("pairing_server");
    WrapperIsCanonical();
  }

  function Letter(i: nat): char
    requires i < 9
  {
    "abcdefghi"[i]
  }

  function Extras(n: nat): set<string>
    requires n <= 9
  {
    if n == 0 then {} else Extras(n - 1) + {Module([Letter(n - 1)])}
  }

  lemma LettersDiffer(i: nat, j: nat)
    requires i < j < 9
    ensures Module([Letter(i)]) != Module([Letter(j)])
  {
    assert Module([Letter(i)])[13] == Letter(i) && Module([Letter(j)])[13] == Letter(j);
  }

  lemma LetterIsWordChar(i: nat)
    requires i < 9
    ensures WordChar(Letter(i))
  {
  }

  lemma {:induction false} ExtrasCount(n: nat)
    requires n <= 9
    ensures |Extras(n)| == n
    ensures forall p :: p in Extras(n) ==> exists i :: 0 <= i < n && p == Module([Letter(i)])
    ensures forall p <- Extras(n) :: Canonical(p) && Collected(p)
  {
    hide Canonical, Collected;
    if n > 0 {
      ExtrasCount(n - 1);
      LetterIsWordChar(n - 1);
      ModuleIsCanonical([Letter(n - 1)]);
      forall i | 0 <= i < n - 1 ensures Module([Letter(i)]) != Module([Letter(n - 1)]) {
        LettersDiffer(i, n - 1);
      }
      hide Module, Letter;
    }
  }

  function Paths(): set<string> {
    RequiredPaths() + Extras(9)
  }

  lemma PathsAreManyAndCanonical()
    ensures |Paths()| >= 9 && RequiredPaths() <= Paths() && forall p <- Paths() :: Canonical(p) && Collected(p)
  {
    hide Canonical, Collected, RequiredPaths, Extras;
    RequiredAreCanonical();
    ExtrasCount(9);
    var rest := Paths() - Extras(9);
    assert Paths() == Extras(9) + rest;
  }

  // ---------- Files of the largest size ----------

  lemma {:induction false} FullSize(source: Payload, files: seq<string>)
    requires forall f <- files :: f in source && |source[f]| == MAX_MEMBER_BYTES
    ensures DataSize(source, files) == |files| * MAX_MEMBER_BYTES
  {
    if files != [] {
      FullSize(source, files[..|files| - 1]);
    }
  }

  lemma {:induction false} FullInstalled(software: Software, logicals: seq<string>)
    requires AllCanonical(logicals) && forall f <- logicals :: |Installed(software, f)| == MAX_MEMBER_BYTES
    ensures SavedSize(software, logicals) == |logicals| * MAX_MEMBER_BYTES
  {
    hide Canonical, TargetFor;
    if logicals != [] {
      FullInstalled(software, logicals[..|logicals| - 1]);
    }
  }

  lemma ListedCount(names: seq<string>, s: set<string>)
    requires Lists(names, s) && Distinct(names)
    ensures |names| == |s|
  {
    hide Ascending;
    Retention.NamesCount(names);
    assert Retention.NamesIn(names) == s;
  }

  /** Nine files of the largest permitted size are too much to be read again. */
  lemma FullFilesDoNotReadBack(env: RollbackEnv, software: Software, logicals: seq<string>)
    requires Faithful(env) && AllCanonical(logicals) && 9 <= |logicals| <= MAX_PACKAGE_FILES
    requires forall f <- logicals :: |Installed(software, f)| == MAX_MEMBER_BYTES
    ensures ReadRollback(env, ArchiveOf(env, software, logicals)) == None
  {
    hide Canonical, TargetFor, Installed, ReadRollback, ArchiveOf, SavedPayload, SnapshotOf;
    FullInstalled(software, logicals);
    SnapshotReadsBack(env, software, logicals);
  }

  function Zeros(): (data: Bytes)
    ensures |data| == MAX_MEMBER_BYTES
  {
    seq(MAX_MEMBER_BYTES, _ => 0)
  }

  lemma RequiredAreFew()
    ensures |RequiredPaths()| <= 7
  {
  }

  lemma UnionCount(a: set<string>, b: set<string>)
    ensures |a + b| <= |a| + |b|
  {
  }

  lemma PathsAreFew()
    ensures |Paths()| <= MAX_PACKAGE_FILES
  {
    ExtrasCount(9);
    RequiredAreFew();
    hide RequiredPaths, Extras;
    UnionCount(RequiredPaths(), Extras(9));
  }

  function FullSoftware(logicals: seq<string>): Software
    requires AllCanonical(logicals)
  {
    if logicals == [] then map[]
    else FullSoftware(logicals[..|logicals| - 1])[TargetFor(logicals[|logicals| - 1]) := Zeros()]
  }

  lemma {:induction false} FullSoftwareIsFull(logicals: seq<string>)
    requires AllCanonical(logicals)
    ensures forall f <- logicals :: |Installed(FullSoftware(logicals), f)| == MAX_MEMBER_BYTES
  {
    hide Canonical, TargetFor;
    if logicals != [] {
      var init, last := logicals[..|logicals| - 1], logicals[|logicals| - 1];
      assert logicals == init + [last];
      FullSoftwareIsFull(init);
    }
  }

  lemma NewestAlone(name: string, mtime: int)
    ensures NewestOf(map[], name, mtime)
  {
  }

  /** On a disk without faults, with every file of a complete package installed at the largest permitted size, a
      snapshot is made and kept and cannot be read again. */
  method UnreadableSnapshot(env: RollbackEnv, name: string, mtime: int) returns (h: Host, logicals: seq<string>)
    requires Faithful(env)
    ensures fresh(h) && h.reliable && h.env == env && AllCanonical(logicals) && RequiredPaths() <= set f | f in logicals
    ensures forall f <- logicals :: |Installed(h.software, f)| == MAX_MEMBER_BYTES
    ensures name in h.snapshots && h.snapshots[name] == Stored(mtime, ArchiveOf(env, h.software, logicals))
    ensures h.Opened(name) == None
  {
    hide Canonical, TargetFor, Paths, ArchiveOf, ReadRollback, Ascending, RequiredPaths;
    PathsAreManyAndCanonical();
    PathsAreFew();
    logicals := Sort(Paths());
    ListedCount(logicals, Paths());
    FullSoftwareIsFull(logicals);
    NewestAlone(name, mtime);
    hide NewestOf, FullSoftware, Installed;
    h := new Host(env, true, FullSoftware(logicals), map[]);
    var ok := h.CreateSoftwareRollback(logicals, name, mtime);
    FullFilesDoNotReadBack(env, h.software, logicals);
  }

  /** A complete tree of permitted files of any permitted sizes is built. */
  lemma TreeIsAccepted(env: Env, source: Payload)
    requires forall rel <- source :: Canonical(rel) && Collected(rel) && |source[rel]| <= MAX_MEMBER_BYTES
    requires RequiredPaths() <= source.Keys && INIT in source
    requires env.initVersion(source[INIT]).Some? && env.version(env.initVersion(source[INIT]).value).Some?
    ensures Refusal(env, source) == None
  {
    hide Canonical, Collected, RequiredPaths;
  }

  lemma PackageIsRefused(env: Env, size: nat, source: Payload, files: seq<string>)
    requires Sound(env) && Buildable(env, source, files) && RequiredPaths() <= set f | f in files
    requires |files| >= 9 && forall f <- files :: |source[f]| == MAX_MEMBER_BYTES
    ensures Read(env, Archive(size, MembersFor(env.encode(BuiltManifest(env, source, files)), source, files))).Err?
  {
    hide Canonical, Read, MembersFor, BuiltManifest, RequiredPaths, Distinct;
    FullSize(source, files);
    TooMuch(env, size, source, files);
    hide WithinLimits;
    PackageRoundTrip(env, size, source, files);
  }

  /** A source tree of such files is built without complaint, and the package is refused whatever its size. */
  method UnreadablePackage(env: Env, full: Bytes) returns (source: Payload, members: seq<Member>)
    requires Sound(env) && |full| == MAX_MEMBER_BYTES
    requires env.initVersion(full).Some? && env.version(env.initVersion(full).value).Some?
    ensures forall rel <- source :: |source[rel]| == MAX_MEMBER_BYTES
    ensures Refusal(env, source) == None
    ensures forall size: nat :: Read(env, Archive(size, members)).Err?
  {
    hide Canonical, Collected, Paths, Read, MembersFor, BuiltManifest, RequiredPaths, Refusal, Sound, Buildable, Parts;
    PathsAreManyAndCanonical();
    source := map f | f in Paths() :: full;
    InitIsRequired();
    forall rel <- source ensures Join(Parts(rel)) == rel {
      CanonicalParts(rel);
    }
    TreeIsAccepted(env, source);
    var r, files := BuildUpdatePackage(env, source);
    members := r.value;
    FilesAreAll(source, files);
    ListedCount(files, source.Keys);
    assert source.Keys == Paths();
    forall size: nat ensures Read(env, Archive(size, members)).Err? {
      PackageIsRefused(env, size, source, files);
    }
  }

  lemma FilesAreAll(source: Payload, files: seq<string>)
    requires Collection(source, files) && forall rel <- source :: Collected(rel)
    ensures Lists(files, source.Keys) && Distinct(files)
  {
    hide Collected, Below;
    AscendingIsDistinct(files);
  }

  lemma TooMuch(env: Env, size: nat, source: Payload, files: seq<string>)
    requires Buildable(env, source, files) && DataSize(source, files) > MAX_UNPACKED_BYTES
    ensures !WithinLimits(env, size, source, files)
  {
    hide Buildable;
  }
}
