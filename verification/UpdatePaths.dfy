/**
 Logical paths of an update package and their installation targets (update_engine.py:
 `_safe_logical_path`, `target_for`), with the default installation directories.
 */
module UpdatePaths {
  import opened Wrappers

  const SOFTWARE_ROOT := "/opt/ge360-bridge"
  const LOCAL_SBIN := "/usr/local/sbin"
  const SYSTEMD_DIR := "/etc/systemd/system"

  const WRAPPER := "ge360-bridge"
  const FIREWALL := "scripts/apply-firewall.sh"
  const BOOT_VERIFY := "scripts/boot-verify.sh"

  // ---------- POSIX paths ----------

  /** The pieces of a string between slashes. */
  function Split(s: string): (pieces: seq<string>)
    ensures pieces != []
  {
    if s == "" then [""]
    else
      var rest := Split(s[1..]);
      if s[0] == '/' then [""] + rest else [[s[0]] + rest[0]] + rest[1..]
  }

  function Kept(pieces: seq<string>): seq<string> {
    if pieces == [] then []
    else (if pieces[0] == "" || pieces[0] == "." then [] else [pieces[0]]) + Kept(pieces[1..])
  }

  /** The parts of a relative path: empty pieces and single dots vanish. */
  function Parts(s: string): seq<string> {
    Kept(Split(s))
  }

  function Join(parts: seq<string>): string {
    if parts == [] then "" else if |parts| == 1 then parts[0] else parts[0] + "/" + Join(parts[1..])
  }

  predicate EndsWith(s: string, suffix: string) {
    |s| >= |suffix| && s[|s| - |suffix|..] == suffix
  }

  predicate WordChar(c: char) {
    'a' <= c <= 'z' || 'A' <= c <= 'Z' || '0' <= c <= '9' || c == '_'
  }

  /** Word characters, perhaps followed by the ending of a Python file. */
  predicate ModulePart(p: string) {
    var stem := if EndsWith(p, ".py") then p[..|p| - 3] else p;
    stem != "" && forall c <- stem :: WordChar(c)
  }

  /** The name of a service or timer of the bridge, with an optional suffix behind a hyphen. */
  predicate UnitName(p: string) {
    var suffix := if EndsWith(p, ".service") then ".service" else ".timer";
    && EndsWith(p, suffix) && "ge360-bridge" <= p[..|p| - |suffix|]
    && var middle := p[12..|p| - |suffix|];
       middle == "" || (|middle| >= 2 && middle[0] == '-'
                        && forall c <- middle[1..] :: WordChar(c) || c == '.' || c == '@' || c == '-')
  }

  datatype PathError = Invalid | NotAllowed | NotPython | BadModule | BadUnit | BadUnitPath | Unmanaged

  function SafeLogicalPath(value: string): Result<string, PathError> {
    if value == "" then Err(Invalid)
    else
      var parts := Parts(value);
      var normalized := Join(parts);
      if value[0] == '/' || ".." in parts || '\\' in value then Err(NotAllowed)
      else if IsModule(normalized) then
        if !EndsWith(normalized, ".py") then Err(NotPython)
        else if exists p <- parts[1..] :: !ModulePart(p) then Err(BadModule)
        else Ok(normalized)
      else if IsScript(normalized) then Ok(normalized)
      else if "systemd/" <= normalized then
        if parts == [] || !UnitName(parts[|parts| - 1]) then Err(BadUnit)
        else if |parts| != 2 then Err(BadUnitPath)
        else Ok(normalized)
      else Err(Unmanaged)
  }

  /** A logical path in the form that the engine works with. */
  predicate Canonical(logical: string) {
    SafeLogicalPath(logical) == Ok(logical)
  }

  predicate IsModule(logical: string) {
    "ge360_bridge/" <= logical
  }

  predicate IsScript(logical: string) {
    logical == WRAPPER || logical == FIREWALL || logical == BOOT_VERIFY
  }

  function Directory(logical: string): string {
    if IsModule(logical) then SOFTWARE_ROOT else if IsScript(logical) then LOCAL_SBIN else SYSTEMD_DIR
  }

  function Base(logical: string): string {
    if IsModule(logical) then logical
    else if logical == WRAPPER then "ge360-bridge"
    else if logical == FIREWALL then "ge360-bridge-firewall"
    else if logical == BOOT_VERIFY then "ge360-bridge-boot-verify"
    else
      var parts := Parts(logical);
      if parts == [] then "" else parts[|parts| - 1]
  }

  function TargetFor(logical: string): string
    requires Canonical(logical)
  {
    Directory(logical) + "/" + Base(logical)
  }

  function ModeFor(logical: string): nat
    requires Canonical(logical)
  {
    if IsScript(logical) then 0x1ED else 0x1A4
  }

  // ---------- Splitting and joining ----------

  ghost predicate Piece(p: string) {
    p != "" && p != "." && '/' !in p
  }

  lemma {:induction false} SplitSingle(p: string)
    requires '/' !in p
    ensures Split(p) == [p]
  {
    if p != "" {
      SplitSingle(p[1..]);
      assert [p[0]] + p[1..] == p;
    }
  }

  lemma {:induction false} SplitFirst(p: string, rest: string)
    requires '/' !in p
    ensures Split(p + "/" + rest) == [p] + Split(rest)
  {
    var s := p + "/" + rest;
    if p == "" {
      assert s[1..] == rest;
    } else {
      SplitFirst(p[1..], rest);
      assert s[1..] == p[1..] + "/" + rest;
      assert [p[0]] + p[1..] == p;
    }
  }

  lemma {:induction false} SplitPieces(s: string)
    ensures forall p <- Split(s) :: '/' !in p && forall c <- p :: c in s
  {
    if s != "" {
      SplitPieces(s[1..]);
      var rest := Split(s[1..]);
      forall p <- Split(s) ensures '/' !in p && forall c <- p :: c in s {
        assert p in rest || p == "" || p == [s[0]] + rest[0];
        assert rest[0] in rest;
      }
    }
  }

  lemma {:induction false} KeptPieces(pieces: seq<string>)
    ensures forall p <- Kept(pieces) :: p in pieces && p != "" && p != "."
  {
    if pieces != [] {
      KeptPieces(pieces[1..]);
    }
  }

  lemma PartsArePieces(s: string)
    ensures forall p <- Parts(s) :: Piece(p) && forall c <- p :: c in s
  {
    SplitPieces(s);
    KeptPieces(Split(s));
  }

  lemma {:induction false} PartsOfJoin(parts: seq<string>)
    requires parts != [] && forall p <- parts :: Piece(p)
    ensures Split(Join(parts)) == parts && Parts(Join(parts)) == parts
  {
    assert Piece(parts[0]);
    if |parts| == 1 {
      SplitSingle(parts[0]);
    } else {
      PartsOfJoin(parts[1..]);
      SplitFirst(parts[0], Join(parts[1..]));
    }
    KeptAll(parts);
  }

  lemma {:induction false} KeptAll(parts: seq<string>)
    requires forall p <- parts :: Piece(p)
    ensures Kept(parts) == parts
  {
    if parts != [] {
      assert Piece(parts[0]);
      KeptAll(parts[1..]);
    }
  }

  lemma {:induction false} JoinChars(parts: seq<string>, c: char)
    requires c != '/' && forall p <- parts :: c !in p
    ensures c !in Join(parts)
  {
    if |parts| > 1 {
      JoinChars(parts[1..], c);
    }
  }

  /** What the check returns passes the check again, unchanged. */
  lemma SafeIsCanonical(value: string)
    requires SafeLogicalPath(value).Ok?
    ensures Canonical(SafeLogicalPath(value).value)
  {
    hide UnitName, ModulePart, IsModule, IsScript, EndsWith, Split, Kept;
    var parts := Parts(value);
    PartsArePieces(value);
    hide Parts;
    assert parts != [] by {
      EmptyIsUnsafe();
    }
    PartsOfJoin(parts);
    JoinChars(parts, '\\');
    StartsWithPiece(parts);
  }

  lemma EmptyIsUnsafe()
    ensures !IsModule("") && !IsScript("") && !("systemd/" <= "") && Join([]) == ""
  {
  }

  lemma StartsWithPiece(parts: seq<string>)
    requires parts != [] && forall p <- parts :: Piece(p)
    ensures Join(parts) != "" && Join(parts)[0] != '/'
  {
    assert Piece(parts[0]);
    assert Join(parts)[0] == parts[0][0];
  }

  // ---------- Targets ----------

  lemma CanonicalParts(logical: string)
    requires Canonical(logical)
    ensures logical == Join(Parts(logical))
    ensures !IsModule(logical) && !IsScript(logical) ==> "systemd/" <= logical && |Parts(logical)| == 2
  {
    hide IsModule, IsScript, UnitName, ModulePart, Kept, Join;
  }

  lemma UnitPath(logical: string, parts: seq<string>)
    requires parts == Parts(logical) && |parts| == 2 && logical == Join(parts) && "systemd/" <= logical
    ensures logical == "systemd/" + parts[1]
  {
    hide SafeLogicalPath, Join, Kept;
    PartsArePieces(logical);
    assert logical == "systemd" + "/" + logical[8..];
    SplitFirst("systemd", logical[8..]);
    PartsOfJoin(parts);
    JoinTwo(parts);
  }

  lemma JoinTwo(parts: seq<string>)
    requires |parts| == 2
    ensures Join(parts) == parts[0] + "/" + parts[1]
  {
  }

  lemma BaseOfUnit(logical: string)
    requires Canonical(logical) && !IsModule(logical) && !IsScript(logical)
    ensures logical == "systemd/" + Base(logical)
  {
    CanonicalParts(logical);
    UnitPath(logical, Parts(logical));
  }

  lemma ScriptsByBase(a: string, b: string)
    requires IsScript(a) && IsScript(b) && !IsModule(a) && !IsModule(b) && Base(a) == Base(b)
    ensures a == b
  {
  }

  lemma DirectoriesAreDistinct(a: string, b: string)
    requires Directory(a) + "/" + Base(a) == Directory(b) + "/" + Base(b)
    ensures Directory(a) == Directory(b) && Base(a) == Base(b)
    ensures IsModule(a) == IsModule(b) && (!IsModule(a) ==> IsScript(a) == IsScript(b))
  {
    hide IsModule, IsScript, Base;
    var t := Directory(a) + "/" + Base(a);
    assert t[1] == Directory(a)[1] == Directory(b)[1];
    var n := |Directory(a)| + 1;
    assert t[n..] == Base(a) && t[n..] == Base(b);
  }

  /** Different canonical logical paths are installed at different places. */
  lemma TargetsAreDistinct(a: string, b: string)
    requires Canonical(a) && Canonical(b) && TargetFor(a) == TargetFor(b)
    ensures a == b
  {
    hide SafeLogicalPath, IsScript, IsModule, Parts;
    DirectoriesAreDistinct(a, b);
    if !IsModule(a) {
      if IsScript(a) {
        ScriptsByBase(a, b);
      } else {
        BaseOfUnit(a);
        BaseOfUnit(b);
      }
    }
  }

  /** Where each canonical path is installed, and with which mode. */
  lemma ModuleTarget(logical: string)
    requires Canonical(logical) && "ge360_bridge/" <= logical
    ensures TargetFor(logical) == "/opt/ge360-bridge/" + logical && ModeFor(logical) == 0x1A4
  {
    hide SafeLogicalPath, Parts;
    assert logical[5] == '_';
  }

  lemma ScriptBases()
    ensures forall f <- ["ge360-bridge", "scripts/apply-firewall.sh", "scripts/boot-verify.sh"] :: IsScript(f) && !IsModule(f)
    ensures Base("ge360-bridge") == "ge360-bridge"
    ensures Base("scripts/apply-firewall.sh") == "ge360-bridge-firewall"
    ensures Base("scripts/boot-verify.sh") == "ge360-bridge-boot-verify"
  {
    hide Parts;
    assert FIREWALL[0] == BOOT_VERIFY[0] == 's' && WRAPPER[5] == '-' && |FIREWALL| != |BOOT_VERIFY|;
  }

  lemma ScriptTargets()
    requires Canonical("ge360-bridge") && Canonical("scripts/apply-firewall.sh") && Canonical("scripts/boot-verify.sh")
    ensures TargetFor("ge360-bridge") == "/usr/local/sbin/ge360-bridge" && ModeFor("ge360-bridge") == 0x1ED
    ensures TargetFor("scripts/apply-firewall.sh") == "/usr/local/sbin/ge360-bridge-firewall"
    ensures TargetFor("scripts/boot-verify.sh") == "/usr/local/sbin/ge360-bridge-boot-verify"
    ensures ModeFor("scripts/apply-firewall.sh") == ModeFor("scripts/boot-verify.sh") == 0x1ED
  {
    hide SafeLogicalPath, Parts;
    ScriptBases();
    hide Base, IsModule, IsScript;
    assert LOCAL_SBIN + "/" + "ge360-bridge" == "/usr/local/sbin/ge360-bridge";
    assert LOCAL_SBIN + "/" + "ge360-bridge-firewall" == "/usr/local/sbin/ge360-bridge-firewall";
    assert LOCAL_SBIN + "/" + "ge360-bridge-boot-verify" == "/usr/local/sbin/ge360-bridge-boot-verify";
  }

  lemma UnitTarget(logical: string)
    requires Canonical(logical) && "systemd/" <= logical
    ensures TargetFor(logical) == "/etc/systemd/system/" + logical[8..] && ModeFor(logical) == 0x1A4
  {
    hide SafeLogicalPath, Parts;
    assert logical[0] == 's' && logical[1] == 'y';
    assert !IsModule(logical) && !IsScript(logical);
    BaseOfUnit(logical);
    hide Base, IsModule, IsScript;
    assert SYSTEMD_DIR + "/" == "/etc/systemd/system/";
  }

  // ---------- The accepted paths ----------

  ghost predicate Word(text: string) {
    text != "" && forall c <- text :: 'a' <= c <= 'z' || 'A' <= c <= 'Z' || '0' <= c <= '9' || c == '_'
  }

  /** A file or directory name of letters, digits and underscores, perhaps with the ending of a Python file. */
  ghost predicate ModuleName(p: string) {
    exists stem :: Word(stem) && (p == stem || p == stem + ".py")
  }

  /** What distinguishes a unit of the bridge: nothing, or something behind a hyphen. */
  ghost predicate UnitSuffix(m: string) {
    m == "" || (|m| >= 2 && m[0] == '-' && forall c <- m[1..] ::
      'a' <= c <= 'z' || 'A' <= c <= 'Z' || '0' <= c <= '9' || c == '_' || c == '.' || c == '@' || c == '-')
  }

  ghost predicate UnitFile(n: string) {
    exists m :: UnitSuffix(m) && (n == "ge360-bridge" + m + ".service" || n == "ge360-bridge" + m + ".timer")
  }

  /** The parts of a Python file of the package. */
  ghost predicate ModuleParts(parts: seq<string>) {
    && |parts| >= 2 && parts[0] == "ge360_bridge" && (forall q <- parts[1..] :: ModuleName(q))
    && exists stem :: Word(stem) && parts[|parts| - 1] == stem + ".py"
  }

  /** How an accepted path is put together: a Python file of the package, one of three scripts, or a unit. */
  ghost predicate Generated(path: string) {
    || (exists parts: seq<string> :: ModuleParts(parts) && path == Join(parts))
    || path in {"ge360-bridge", "scripts/apply-firewall.sh", "scripts/boot-verify.sh"}
    || exists n :: UnitFile(n) && path == "systemd/" + n
  }

  lemma PlainWord(text: string)
    requires text != ""
    ensures Word(text) <==> forall c <- text :: WordChar(c)
  {
    if Word(text) {
      forall c <- text ensures WordChar(c) {
      }
    }
  }

  lemma ModulePartMeans(p: string)
    ensures ModulePart(p) <==> ModuleName(p)
  {
    if ModulePart(p) {
      var stem := if EndsWith(p, ".py") then p[..|p| - 3] else p;
      assert stem != "" && forall c <- stem :: WordChar(c);
      PlainWord(stem);
    }
    if ModuleName(p) {
      var stem :| Word(stem) && (p == stem || p == stem + ".py");
      if p == stem + ".py" {
        assert p[|p| - 3..] == ".py" && p[..|p| - 3] == stem;
      } else if EndsWith(p, ".py") {
        assert p[|p| - 3..][0] == '.';
        assert p[|p| - 3] in stem;
      }
    }
  }

  lemma PlainSuffix(m: string)
    ensures UnitSuffix(m)
            <==> (m == "" || (|m| >= 2 && m[0] == '-' && forall c <- m[1..] :: WordChar(c) || c == '.' || c == '@' || c == '-'))
  {
    if UnitSuffix(m) && m != "" {
      forall c <- m[1..] ensures WordChar(c) || c == '.' || c == '@' || c == '-' {
      }
    }
  }

  lemma UnitEnding(m: string, n: string)
    ensures n == "ge360-bridge" + m + ".service" ==> EndsWith(n, ".service") && n[12..|n| - 8] == m && "ge360-bridge" <= n[..|n| - 8]
    ensures n == "ge360-bridge" + m + ".timer" ==>
              !EndsWith(n, ".service") && EndsWith(n, ".timer") && n[12..|n| - 6] == m && "ge360-bridge" <= n[..|n| - 6]
  {
    if n == "ge360-bridge" + m + ".service" {
      assert n[|n| - 8..] == ".service" && n[..|n| - 8] == "ge360-bridge" + m;
    }
    if n == "ge360-bridge" + m + ".timer" {
      assert n[|n| - 6..] == ".timer" && n[..|n| - 6] == "ge360-bridge" + m && n[|n| - 1] == 'r';
      assert n[|n| - 8..][7] == 'r' && ".service"[7] == 'e';
    }
  }

  lemma UnitStem(n: string, suffix: string) returns (m: string)
    requires |n| >= |suffix| && n[|n| - |suffix|..] == suffix && "ge360-bridge" <= n[..|n| - |suffix|]
    ensures n == "ge360-bridge" + m + suffix && m == n[12..|n| - |suffix|]
  {
    m := n[12..|n| - |suffix|];
  }

  lemma NamedUnit(n: string)
    requires UnitName(n)
    ensures UnitFile(n)
  {
    if EndsWith(n, ".service") {
      var m := UnitStem(n, ".service");
      PlainSuffix(m);
    } else {
      var m := UnitStem(n, ".timer");
      PlainSuffix(m);
    }
  }

  lemma UnitsAreNamed(m: string, n: string)
    requires UnitSuffix(m) && (n == "ge360-bridge" + m + ".service" || n == "ge360-bridge" + m + ".timer")
    ensures UnitName(n)
  {
    PlainSuffix(m);
    UnitEnding(m, n);
    hide UnitSuffix, EndsWith;
  }

  lemma UnitNameMeans(n: string)
    ensures UnitName(n) <==> UnitFile(n)
  {
    if UnitName(n) {
      NamedUnit(n);
    }
    hide UnitName, UnitSuffix;
    if UnitFile(n) {
      var m :| UnitSuffix(m) && (n == "ge360-bridge" + m + ".service" || n == "ge360-bridge" + m + ".timer");
      UnitsAreNamed(m, n);
    }
  }

  /** What the check decides from the parts of a path and their normal form. */
  predicate Managed(parts: seq<string>, path: string) {
    if IsModule(path) then EndsWith(path, ".py") && parts != [] && forall p <- parts[1..] :: ModulePart(p)
    else IsScript(path) || ("systemd/" <= path && |parts| == 2 && UnitName(parts[1]))
  }

  lemma WordIsPiece(q: string)
    requires ModuleName(q)
    ensures Piece(q)
  {
    var stem :| Word(stem) && (q == stem || q == stem + ".py");
    assert q[0] == stem[0] && stem[0] in stem;
  }

  lemma UnitIsPiece(n: string)
    requires UnitFile(n)
    ensures Piece(n)
  {
    var m :| UnitSuffix(m) && (n == "ge360-bridge" + m + ".service" || n == "ge360-bridge" + m + ".timer");
    assert m == "" || m == [m[0]] + m[1..];
  }

  lemma ModulePieces(parts: seq<string>)
    requires ModuleParts(parts)
    ensures forall p <- parts :: Piece(p)
  {
    forall p <- parts ensures Piece(p) {
      if p == parts[0] {
        assert |p| == 12;
      } else {
        var i :| 0 < i < |parts| && parts[i] == p;
        assert parts[1..][i - 1] == p;
        WordIsPiece(p);
      }
    }
  }

  lemma {:induction false} JoinEnd(parts: seq<string>)
    requires parts != []
    ensures |Join(parts)| >= |parts[|parts| - 1]| && Join(parts)[|Join(parts)| - |parts[|parts| - 1]|..] == parts[|parts| - 1]
    ensures |parts| > 1 ==> |Join(parts)| > |parts[|parts| - 1]| && Join(parts)[|Join(parts)| - |parts[|parts| - 1]| - 1] == '/'
  {
    if |parts| > 1 {
      JoinEnd(parts[1..]);
    }
  }

  /** A path begins with a directory exactly if that is its first part and others follow. */
  lemma BeginsWith(parts: seq<string>, directory: string)
    requires parts != [] && (forall p <- parts :: Piece(p)) && Piece(directory)
    ensures directory + "/" <= Join(parts) <==> |parts| >= 2 && parts[0] == directory
  {
    if |parts| >= 2 && parts[0] == directory {
      IsPrefix(directory + "/", Join(parts[1..]));
    }
    PartsOfJoin(parts);
    hide Join, Parts, Split;
    if directory + "/" <= Join(parts) {
      FirstPart(Join(parts), directory);
    }
  }

  lemma IsPrefix(a: string, b: string)
    ensures a <= a + b
  {
  }

  lemma FirstPart(path: string, directory: string)
    requires '/' !in directory && directory + "/" <= path
    ensures |Split(path)| >= 2 && Split(path)[0] == directory
  {
    hide Split;
    var rest := path[|directory| + 1..];
    RestOf(path, directory + "/");
    assert path == directory + "/" + rest;
    SplitFirst(directory, rest);
  }

  lemma RestOf(path: string, start: string)
    requires start <= path
    ensures path == start + path[|start|..]
  {
  }

  lemma EndsInPy(s: string)
    ensures EndsWith(s, ".py") <==> |s| >= 3 && s[|s| - 3] == '.' && s[|s| - 2] == 'p' && s[|s| - 1] == 'y'
  {
    if |s| >= 3 {
      assert s[|s| - 3..] == [s[|s| - 3], s[|s| - 2], s[|s| - 1]];
    }
  }

  lemma LastChars(path: string, last: string, i: nat)
    requires |path| >= |last| && path[|path| - |last|..] == last && i < |last|
    ensures path[|path| - 1 - i] == last[|last| - 1 - i]
  {
    assert path[|path| - |last|..][|last| - 1 - i] == path[|path| - 1 - i];
  }

  lemma PythonFile(parts: seq<string>)
    requires parts != [] && forall p <- parts :: Piece(p)
    ensures EndsWith(Join(parts), ".py") <==> EndsWith(parts[|parts| - 1], ".py")
  {
    var path, last := Join(parts), parts[|parts| - 1];
    JoinEnd(parts);
    assert |parts| == 1 ==> path == last;
    assert Piece(last) && |last| >= 1;
    EndsInPy(path);
    EndsInPy(last);
    hide Join, EndsWith, Piece;
    LastChars(path, last, 0);
    if |last| > 1 {
      LastChars(path, last, 1);
    }
    if |last| > 2 {
      LastChars(path, last, 2);
    }
  }

  lemma ModuleMeans(parts: seq<string>)
    requires |parts| >= 2 && parts[0] == "ge360_bridge" && forall p <- parts :: Piece(p)
    ensures ModuleParts(parts) <==> EndsWith(Join(parts), ".py") && forall p <- parts[1..] :: ModulePart(p)
  {
    PythonFile(parts);
    var last := parts[|parts| - 1];
    assert parts[1..][|parts| - 2] == last;
    forall p: string ensures ModulePart(p) <==> ModuleName(p) {
      ModulePartMeans(p);
    }
    hide ModulePart, Join;
    if ModuleParts(parts) {
      var stem :| Word(stem) && last == stem + ".py";
      assert last[|last| - 3..] == ".py";
    } else if EndsWith(last, ".py") && ModuleName(last) {
      EndsInStem(last);
    }
  }

  lemma EndsInStem(last: string)
    requires ModuleName(last) && EndsWith(last, ".py")
    ensures exists stem :: Word(stem) && last == stem + ".py"
  {
    var stem :| Word(stem) && (last == stem || last == stem + ".py");
    if last == stem {
      assert last[|last| - 3..][0] == '.';
      assert last[|last| - 3] in stem;
    }
  }

  lemma DirectoriesArePieces()
    ensures Piece("ge360_bridge") && Piece("systemd") && "ge360_bridge" + "/" == "ge360_bridge/" && "systemd" + "/" == "systemd/"
    ensures "ge360_bridge" != "systemd"
  {
    assert |"ge360_bridge"| == 12;
  }

  lemma ModuleWay(parts: seq<string>)
    requires parts != [] && forall p <- parts :: Piece(p)
    ensures (exists other: seq<string> :: ModuleParts(other) && Join(parts) == Join(other)) <==> ModuleParts(parts)
  {
    hide ModuleParts;
    if other: seq<string> :| ModuleParts(other) && Join(parts) == Join(other) {
      ModulePieces(other);
      assert other != [] by {
        HasParts(other);
      }
      PartsOfJoin(other);
      PartsOfJoin(parts);
    }
  }

  lemma HasParts(parts: seq<string>)
    requires ModuleParts(parts)
    ensures |parts| >= 2 && parts[0] == "ge360_bridge"
  {
  }

  lemma UnitParts(parts: seq<string>, n: string)
    requires parts != [] && (forall p <- parts :: Piece(p)) && Piece(n) && Join(parts) == "systemd/" + n
    ensures parts == ["systemd", n]
  {
    DirectoriesArePieces();
    hide Piece;
    var other := ["systemd", n];
    JoinTwo(other);
    PartsOfJoin(other);
    PartsOfJoin(parts);
  }

  lemma UnitWay(parts: seq<string>)
    requires parts != [] && forall p <- parts :: Piece(p)
    ensures (exists n :: UnitFile(n) && Join(parts) == "systemd/" + n)
            <==> (|parts| == 2 && parts[0] == "systemd" && UnitFile(parts[1]))
  {
    hide UnitFile, Join, Piece;
    DirectoriesArePieces();
    if n :| UnitFile(n) && Join(parts) == "systemd/" + n {
      UnitIsPiece(n);
      UnitParts(parts, n);
    }
    if |parts| == 2 && parts[0] == "systemd" {
      JoinTwo(parts);
      assert parts[0] + "/" + parts[1] == "systemd/" + parts[1];
    }
  }

  /** The check accepts exactly the paths that are put together as above. */
  lemma ManagedMeans(parts: seq<string>)
    requires parts != [] && forall p <- parts :: Piece(p)
    ensures Managed(parts, Join(parts)) <==> Generated(Join(parts))
  {
    hide Split, Kept, Parts, UnitName, ModulePart, EndsWith, Piece, Join, ModuleParts, UnitFile;
    DirectoriesArePieces();
    BeginsWith(parts, "ge360_bridge");
    BeginsWith(parts, "systemd");
    ModuleWay(parts);
    UnitWay(parts);
    ScriptBases();
    if |parts| >= 2 && parts[0] == "ge360_bridge" {
      ModuleMeans(parts);
    } else if ModuleParts(parts) {
      HasParts(parts);
    }
    if |parts| == 2 {
      UnitNameMeans(parts[1]);
    }
  }

  /** A value is accepted exactly if it is relative, has no parent steps and no backslashes, and its normal form is put
      together as above; what is returned is that normal form. */
  lemma SafeMeans(value: string)
    ensures SafeLogicalPath(value).Ok?
            <==> (value != "" && value[0] != '/' && ".." !in Parts(value) && '\\' !in value && Generated(Join(Parts(value))))
    ensures SafeLogicalPath(value).Ok? ==> SafeLogicalPath(value).value == Join(Parts(value))
  {
    hide Split, Kept, UnitName, ModulePart, EndsWith, Piece, Join, ModuleParts, UnitFile, Generated;
    var parts := Parts(value);
    PartsArePieces(value);
    hide Parts;
    if parts == [] {
      EmptyIsUnsafe();
      NothingIsGenerated();
    } else {
      ManagedMeans(parts);
    }
  }

  lemma NothingIsGenerated()
    ensures !Generated("")
  {
    hide ModuleParts, UnitFile;
    forall parts: seq<string> | ModuleParts(parts) ensures Join(parts) != "" {
      HasParts(parts);
      ModulePieces(parts);
      StartsWithPiece(parts);
    }
  }
}
