/**
 The host that an update changes step by step (update_engine.py: `apply_update` and the functions it calls).
 */
module UpdateHost {
  import opened Wrappers
  import opened Bits
  import opened UpdatePaths
  import opened UpdatePackage
  import opened UpdateRollback
  import opened UpdateEngine
  import opened Names
  import Retention

  datatype Stored = Stored(mtime: int, archive: seq<Member>)

  /** How `apply_update` ends: refused before the transaction starts, successful, failed before a snapshot was
      made, failed and `rolled_back`, or failed twice. */
  datatype Outcome = Rejected | Updated | Aborted | RolledBack | RollbackFailed

  /** What answers from outside, in the order in which it is asked: staging with its checks, the configuration backup,
      restart, health check and history file after the installation, and the restored configuration, restart and
      health check after a rollback. */
  datatype World = World(staged: bool, backedUp: bool, restarted: bool, healthy: bool, recorded: bool,
                         configRestored: bool, restartedAgain: bool, healthyAgain: bool)

  function Times(snapshots: map<string, Stored>): Retention.Times {
    map name | name in snapshots :: snapshots[name].mtime
  }

  /** Every payload is at its place and everything else is as before. */
  ghost predicate Holds(before: Software, after: Software, payload: Payload)
    requires forall f <- payload :: Canonical(f)
  {
    && (forall f <- payload :: At(after, TargetFor(f)) == Some(payload[f]))
    && forall path :: (forall f <- payload :: TargetFor(f) != path) ==> At(after, path) == At(before, path)
  }

  lemma InstalledHolds(before: Software, payload: Payload, logicals: seq<string>)
    requires AllCanonical(logicals) && forall f :: f in logicals <==> f in payload
    ensures Holds(before, InstalledAll(before, payload, logicals), payload)
  {
    hide Canonical, TargetFor, InstalledAll;
    InstallHolds(before, payload, logicals);
    var after := InstalledAll(before, payload, logicals);
    forall path | forall f <- payload :: TargetFor(f) != path ensures At(after, path) == At(before, path) {
      assert !IsTarget(logicals, path);
    }
  }

  /** An accepted package has at most 256 payload files, all with canonical names. */
  lemma {:induction false} ScannedPayload(members: seq<Member>)
    requires Scan(members).Ok?
    ensures var s := Scan(members).value;
            && (forall f <- s.payload :: Canonical(f))
            && |s.payload| + (if s.manifest.Some? then 1 else 0) <= |members|
  {
    hide SafeLogicalPath, Canonical;
    if members != [] {
      var m := members[|members| - 1];
      ScannedPayload(members[..|members| - 1]);
      if PAYLOAD <= m.name && SafeLogicalPath(m.name[|PAYLOAD|..]).Ok? {
        SafeIsCanonical(m.name[|PAYLOAD|..]);
      }
    }
  }

  lemma AcceptedPayload(env: Env, a: Archive)
    requires Read(env, a).Ok?
    ensures var payload := Read(env, a).value.1;
            (forall f <- payload :: Canonical(f)) && |payload| <= MAX_PACKAGE_FILES
  {
    hide Scan, CheckManifest, Canonical;
    ScannedPayload(a.members);
  }

  /** `logicals` lists the payload of an accepted package, sorted. */
  ghost predicate ListsPayload(env: Env, a: Archive, logicals: seq<string>) {
    && Read(env, a).Ok? && AllCanonical(logicals) && |logicals| <= MAX_PACKAGE_FILES
    && Lists(logicals, Read(env, a).value.1.Keys)
    && forall f <- Read(env, a).value.1 :: Canonical(f)
  }

  lemma Listed(env: Env, a: Archive, logicals: seq<string>)
    requires Read(env, a).Ok? && Distinct(logicals) && Lists(logicals, Read(env, a).value.1.Keys)
    ensures ListsPayload(env, a, logicals)
  {
    hide Canonical, Read;
    AcceptedPayload(env, a);
    Retention.NamesCount(logicals);
    var payload := Read(env, a).value.1;
    assert Retention.NamesIn(logicals) == payload.Keys;
    assert |payload| == |payload.Keys|;
  }

  class Host {
    var software: Software
    var snapshots: map<string, Stored>
    const env: RollbackEnv

    /** On a reliable host no file operation fails. */
    const reliable: bool

    constructor (env: RollbackEnv, reliable: bool, software: Software, snapshots: map<string, Stored>)
      ensures this.env == env && this.reliable == reliable && this.software == software && this.snapshots == snapshots
    {
      this.env, this.reliable, this.software, this.snapshots := env, reliable, software, snapshots;
    }

    method Fails() returns (failed: bool)
      ensures reliable ==> !failed
    {
      failed := false;
      if !reliable {
        if * {
          failed := true;
        }
      }
    }

    /** A failure leaves the old content or the new, never a part. */
    method AtomicInstall(target: string, data: Bytes) returns (ok: bool)
      modifies this`software
      ensures ok ==> software == old(software)[target := data]
      ensures software == old(software) || software == old(software)[target := data]
      ensures reliable ==> ok
    {
      var failed := Fails();
      if failed {
        return false;
      }
      software := software[target := data];
      failed := Fails();
      ok := !failed;
    }

    method Unlink(target: string) returns (ok: bool)
      modifies this`software
      ensures ok ==> software == old(software) - {target}
      ensures !ok ==> software == old(software)
      ensures reliable ==> ok
    {
      var failed := Fails();
      if failed {
        return false;
      }
      software := software - {target};
      ok := true;
    }

    method InstallPayload(payload: Payload, logicals: seq<string>) returns (ok: bool)
      requires AllCanonical(logicals) && forall f <- logicals :: f in payload
      modifies this`software
      ensures ok ==> software == InstalledAll(old(software), payload, logicals)
      ensures SameOutside(software, old(software), logicals)
      ensures reliable ==> ok
    {
      hide Canonical, TargetFor;
      ghost var before := software;
      for i := 0 to |logicals|
        invariant software == InstalledAll(before, payload, logicals[..i]) && SameOutside(software, before, logicals)
      {
        var f := logicals[i];
        assert logicals[..i + 1][..i] == logicals[..i];
        ok := AtomicInstall(TargetFor(f), payload[f]);
        assert f in logicals && IsTarget(logicals, TargetFor(f));
        if !ok {
          return false;
        }
      }
      assert logicals[..|logicals|] == logicals;
      ok := true;
    }

    method LargestFits(logicals: seq<string>) returns (ok: bool)
      requires AllCanonical(logicals)
      ensures ok <==> forall f <- logicals :: |Installed(software, f)| <= MAX_MEMBER_BYTES
    {
      hide Canonical, TargetFor;
      for i := 0 to |logicals|
        invariant forall f <- logicals[..i] :: |Installed(software, f)| <= MAX_MEMBER_BYTES
      {
        var f := logicals[i];
        assert f in logicals && logicals[..i + 1] == logicals[..i] + [f];
        if |Installed(software, f)| > MAX_MEMBER_BYTES {
          return false;
        }
      }
      assert logicals[..|logicals|] == logicals;
      ok := true;
    }

    /** The snapshot holds what is installed now; pruning may already drop it when newer ones exist. */
    method CreateSoftwareRollback(logicals: seq<string>, name: string, mtime: int) returns (ok: bool)
      requires AllCanonical(logicals)
      modifies this`snapshots
      ensures ok ==> Retention.Retained(Times(old(snapshots))[name := mtime], 3, snapshots.Keys)
      ensures ok ==> forall kept <- snapshots, gone <- old(snapshots) :: gone != name && gone !in snapshots ==>
                       old(snapshots)[gone].mtime <= snapshots[kept].mtime
      ensures ok ==> forall f <- logicals :: |Installed(software, f)| <= MAX_MEMBER_BYTES
      ensures reliable && (forall f <- logicals :: |Installed(software, f)| <= MAX_MEMBER_BYTES) ==> ok
      ensures name in snapshots && ok ==> snapshots[name] == Stored(mtime, ArchiveOf(env, software, logicals))
      ensures ok && NewestOf(old(snapshots), name, mtime) ==> name in snapshots
      ensures forall n <- snapshots :: n == name || (n in old(snapshots) && snapshots[n] == old(snapshots)[n])
    {
      hide Canonical, TargetFor, ArchiveOf, Retention.Retained, Retention.Newer;
      ok := LargestFits(logicals);
      if !ok {
        return;
      }
      var failed := Fails();
      if failed {
        return false;
      }
      snapshots := snapshots[name := Stored(mtime, ArchiveOf(env, software, logicals))];
      ghost var all := snapshots;
      failed := Fails();
      if failed {
        return false;
      }
      ghost var kept;
      snapshots, ok, kept := Retention.Prune(snapshots, Times(snapshots), ROLLBACK_RETENTION, reliable);
      assert Times(all) == Times(old(snapshots))[name := mtime];
      if ok {
        OlderAreDropped(old(snapshots), name, all[name], snapshots);
      }
      if ok && NewestOf(old(snapshots), name, mtime) {
        Retention.NewestIsRetained(Times(all), ROLLBACK_RETENTION, snapshots.Keys, name);
      }
    }

    /** What reading a snapshot gives, if it is there. */
    function Opened(name: string): Option<(Snapshot, Payload)>
      reads this`snapshots
    {
      if name in snapshots then ReadRollback(env, snapshots[name].archive) else None
    }

    method RestoreOne(item: Item, payload: Payload) returns (ok: bool)
      modifies this`software
      ensures ok ==> RestoreItem(env, item, payload, old(software)) == Some(software)
      ensures software == old(software) || RestoreItem(env, item, payload, old(software)) == Some(software)
      ensures reliable && RestoreItem(env, item, payload, old(software)).Some? ==> ok
    {
      hide SafeLogicalPath, Canonical, TargetFor;
      var checked := SafeLogicalPath(item.path);
      if checked.Err? {
        return false;
      }
      var logical := checked.value;
      SafeIsCanonical(item.path);
      var data := if logical in payload then payload[logical] else [];
      if item.existed {
        if item.size != |data| || item.digest != env.sha(data) {
          return false;
        }
        ok := AtomicInstall(TargetFor(logical), data);
      } else {
        if logical in payload {
          return false;
        }
        ok := Unlink(TargetFor(logical));
      }
    }

    /** The first `n` files of the snapshot are restored; all of them on success. */
    method RestoreSoftwareRollback(name: string) returns (ok: bool, ghost n: nat)
      modifies this`software
      ensures Opened(name).None? ==> !ok && software == old(software)
      ensures Opened(name).Some? ==>
                var (snapshot, payload) := Opened(name).value;
                && n <= |snapshot.files| && (ok ==> n == |snapshot.files|)
                && RestoreItems(env, snapshot.files[..n], payload, old(software)) == Some(software)
                && (reliable && RestoreItems(env, snapshot.files, payload, old(software)).Some? ==> ok)
    {
      hide ReadRollback, RestoreItem;
      n := 0;
      var read := Opened(name);
      if read.None? {
        return false, n;
      }
      var (snapshot, payload) := read.value;
      var items := snapshot.files;
      for i := 0 to |items|
        invariant RestoreItems(env, items[..i], payload, old(software)) == Some(software)
      {
        ghost var was := software;
        assert items[..i + 1][..i] == items[..i];
        RestorePrefix(env, items, payload, old(software), i + 1);
        ok := RestoreOne(items[i], payload);
        if !ok {
          n := if software == was then i else i + 1;
          return false, n;
        }
      }
      assert items[..|items|] == items;
      ok, n := true, |items|;
    }

    /** `name` and `mtime` are those of the new snapshot; `newer` compares versions. Every end of the transaction has the
        answers that lead to it, and without faults of the disk the answers decide the end. */
    method ApplyUpdate(packages: Env, a: Archive, newer: string -> bool, name: string, mtime: int, world: World)
        returns (outcome: Outcome, ghost logicals: seq<string>)
      requires Faithful(env)
      modifies this`software, this`snapshots
      ensures outcome.Rejected? <==> Read(packages, a).Err? || !newer(Read(packages, a).value.0.version) || !world.staged
      ensures outcome.Rejected? ==> snapshots == old(snapshots)
      ensures outcome.Rejected? || outcome.Aborted? || outcome.RolledBack? ==> software == old(software)
      ensures !outcome.Rejected? ==> ListsPayload(packages, a, logicals)
      ensures !outcome.Rejected? && !world.backedUp ==> outcome.Aborted? && snapshots == old(snapshots)
      ensures !outcome.Rejected? && (exists f <- logicals :: |Installed(old(software), f)| > MAX_MEMBER_BYTES) ==> outcome.Aborted?
      ensures outcome.Updated? ==> world.backedUp && world.restarted && world.healthy && world.recorded
      ensures outcome.Updated? ==> Holds(old(software), software, Read(packages, a).value.1)
      ensures outcome.Updated? && NewestOf(old(snapshots), name, mtime) ==>
                name in snapshots && snapshots[name] == Stored(mtime, ArchiveOf(env, old(software), logicals))
      ensures outcome.RolledBack? ==> world.configRestored && world.restartedAgain && world.healthyAgain
      ensures outcome.RollbackFailed? ==> SameOutside(software, old(software), logicals)
      ensures reliable && !outcome.Rejected? && world.backedUp
              && (forall f <- logicals :: |Installed(old(software), f)| <= MAX_MEMBER_BYTES) ==>
                if world.restarted && world.healthy && world.recorded then outcome.Updated?
                else (outcome.RolledBack? || outcome.RollbackFailed?)
                     && (NewestOf(old(snapshots), name, mtime) && Readable(env, old(software), logicals) ==>
                           software == old(software)
                           && (outcome.RolledBack? <==> world.configRestored && world.restartedAgain && world.healthyAgain))
    {
      hide Canonical, TargetFor, Read, NewestOf, Readable, ArchiveOf, RestoreItems, InstalledAll, Holds, SameOutside, Opened;
      logicals := [];
      var read := ReadPackage(packages, a);
      if read.Err? || !newer(read.value.0.version) {
        return Rejected, logicals;
      }
      if !world.staged {
        return Rejected, logicals;
      }
      var payload := read.value.1;
      AcceptedPayload(packages, a);
      var files := Sort(payload.Keys);
      logicals := files;
      Listed(packages, a, files);
      if !world.backedUp {
        return Aborted, logicals;
      }
      var ok := CreateSoftwareRollback(files, name, mtime);
      if !ok {
        return Aborted, logicals;
      }
      ghost var before := software;
      ok := InstallPayload(payload, files);
      if ok && world.restarted && world.healthy && world.recorded {
        InstalledHolds(before, payload, files);
        return Updated, logicals;
      }
      ghost var broken := software;
      ghost var n;
      ok, n := RestoreSoftwareRollback(name);
      Recovery(before, broken, software, files, name, n);
      outcome := if ok && world.configRestored && world.restartedAgain && world.healthyAgain then RolledBack else RollbackFailed;
    }

    /** What a restore of a new snapshot comes to. */
    lemma Recovery(before: Software, broken: Software, after: Software, logicals: seq<string>, name: string, n: nat)
      requires Faithful(env) && AllCanonical(logicals) && |logicals| <= MAX_PACKAGE_FILES
      requires forall f <- logicals :: |Installed(before, f)| <= MAX_MEMBER_BYTES
      requires name in snapshots ==> snapshots[name].archive == ArchiveOf(env, before, logicals)
      requires SameOutside(broken, before, logicals)
      requires Opened(name).None? ==> after == broken
      requires Opened(name).Some? ==>
                 var (snapshot, payload) := Opened(name).value;
                 n <= |snapshot.files| && RestoreItems(env, snapshot.files[..n], payload, broken) == Some(after)
      ensures SameOutside(after, before, logicals)
      ensures Opened(name).Some? ==>
                var (snapshot, payload) := Opened(name).value;
                && RestoreItems(env, snapshot.files, payload, broken) == Some(before)
                && (n == |snapshot.files| ==> after == before)
      ensures name in snapshots && Readable(env, before, logicals) ==> Opened(name).Some?
    {
      hide Canonical, TargetFor, Readable, ArchiveOf, RestoreItems, SameOutside, ItemsFor, SavedPayload;
      SnapshotReadsBack(env, before, logicals);
      if Opened(name).Some? {
        RestoreProgress(env, before, logicals, broken, n);
        RestoreRecovers(env, before, logicals, broken);
        assert Opened(name).value.0.files[..|logicals|] == Opened(name).value.0.files;
      }
    }
  }

  lemma {:induction false} RestorePrefix(env: RollbackEnv, items: seq<Item>, payload: Payload, software: Software, n: nat)
    requires n <= |items|
    ensures RestoreItems(env, items[..n], payload, software).None? ==> RestoreItems(env, items, payload, software).None?
  {
    hide RestoreItem;
    if n == |items| {
      assert items[..n] == items;
    } else {
      assert items[..|items| - 1][..n] == items[..n];
      RestorePrefix(env, items[..|items| - 1], payload, software, n);
    }
  }

  lemma OlderAreDropped(before: map<string, Stored>, name: string, added: Stored, after: map<string, Stored>)
    requires Retention.Retained(Times(before[name := added]), 3, after.Keys)
    requires forall n <- after :: n in before[name := added] && after[n] == before[name := added][n]
    ensures forall kept <- after, gone <- before :: gone != name && gone !in after ==> before[gone].mtime <= after[kept].mtime
  {
    hide Retention.Retained;
    var all := before[name := added];
    forall a <- after, b <- before | b != name && b !in after ensures all[b].mtime <= all[a].mtime {
      Retention.DroppedIsOlder(Times(all), 3, after.Keys, a, b);
    }
  }

  /** A new snapshot is newer than all that are there. */
  ghost predicate NewestOf(snapshots: map<string, Stored>, name: string, mtime: int) {
    var times := Times(snapshots)[name := mtime];
    forall n <- times :: n != name ==> Retention.Newer(times, name, n)
  }
}
