/**
 The configuration and its backups (backup.py: `create_backup`, `prune_backups`, `restore_backup`).
 */
module BackupStore {
  import opened Wrappers
  import opened Bits
  import opened Names
  import opened UpdatePackage
  import opened BackupArchive
  import Retention

  datatype Saved = Saved(mtime: int, archive: Archive)

  function Times(backups: map<string, Saved>): Retention.Times {
    map name | name in backups :: backups[name].mtime
  }

  /** The configuration files that a backup covers. */
  function Captured(files: Payload): Payload {
    map n | n in files && n in AllowedNames() :: files[n]
  }

  /** The archive of some configuration. */
  ghost predicate Records(env: BackupEnv, a: Archive, files: Payload, info: string) {
    exists names :: Lists(names, files.Keys) && a.members == TarOf(env.encode(ManifestOf(env, files, names, info)), files, names)
  }

  /** Reading a recorded configuration gives that configuration. */
  lemma RecordedReadsBack(env: BackupEnv, a: Archive, files: Payload, info: string)
    requires ReadsBack(env) && Compact(env) && Capturable(env, files) && Records(env, a, files, info)
    requires |info| <= MAX_INFO && a.size <= MAX_ARCHIVE_BYTES
    ensures ReadArchive(env, a).Ok? && ReadArchive(env, a).value.1 == files
  {
    hide Capturable, TarOf, ManifestOf, ReadArchive, Compact, ReadsBack;
    var names :| Lists(names, files.Keys) && a.members == TarOf(env.encode(ManifestOf(env, files, names, info)), files, names);
    BackupRoundTrip(env, files, names, info, a.size);
    assert a == Archive(a.size, a.members);
  }

  /** Restoring the backup of `before`, whatever `after` came of it, brings back everything that was captured; the
      whole configuration comes back exactly if no further file has appeared, and doing it twice changes nothing. */
  lemma RestoreUndoes(env: BackupEnv, a: Archive, before: Payload, info: string, after: Payload)
    requires ReadsBack(env) && Compact(env) && Capturable(env, Captured(before)) && Records(env, a, Captured(before), info)
    requires |info| <= MAX_INFO && a.size <= MAX_ARCHIVE_BYTES
    ensures ReadArchive(env, a).Ok?
    ensures var restored := after + ReadArchive(env, a).value.1;
            && Captured(restored) == Captured(after) + Captured(before)
            && (Captured(restored) == Captured(before) <==> Captured(after).Keys <= Captured(before).Keys)
            && restored + ReadArchive(env, a).value.1 == restored
  {
    hide AllowedNames, ReadArchive, Records, Compact, Capturable, ReadsBack;
    RecordedReadsBack(env, a, Captured(before), info);
    var r := after + Captured(before);
    assert Captured(r).Keys == Captured(after).Keys + Captured(before).Keys;
    if Captured(after).Keys <= Captured(before).Keys {
      assert Captured(r).Keys == Captured(before).Keys;
    }
  }

  /** What a creation comes to: a new backup, or nothing because the day has one. */
  datatype Creation = Created(name: string) | Skipped(name: string)

  datatype Restoration = Plan(names: set<string>) | Restored(safety: Option<string>)

  /** What names, times and compresses a backup. */
  datatype Making = Making(name: string, mtime: int, info: string, packed: nat)

  class Configuration {
    var files: Payload
    var backups: map<string, Saved>
    const env: BackupEnv
    /** Whether no file operation fails. */
    const reliable: bool

    constructor (env: BackupEnv, files: Payload, backups: map<string, Saved>, reliable: bool)
      ensures this.env == env && this.files == files && this.backups == backups && this.reliable == reliable
    {
      this.env, this.files, this.backups, this.reliable := env, files, backups, reliable;
    }

    method SnapshotSources() returns (r: Result<Payload, BackupError>)
      ensures r == Err(SourceMissing) ==> exists n <- RequiredNames() :: n !in files
      ensures r == Err(FileTooLarge) ==> exists n <- files :: n in AllowedNames() && |files[n]| > MAX_FILE_BYTES
      ensures (exists n <- RequiredNames() :: n in files && |files[n]| > MAX_FILE_BYTES) ==> r == Err(FileTooLarge)
      ensures r.Ok? ==> r.value == Captured(files)
      ensures r.Ok? ==> forall n :: n in r.value <==> n in files && n in AllowedNames()
      ensures r.Ok? ==> forall n <- r.value :: r.value[n] == files[n]
      ensures r.Ok? <==> Capturable(env, Captured(files))
      ensures r.Err? ==> r.error in {SourceMissing, FileTooLarge, SnapshotInvalid}
    {
      hide RequiredNames, AllowedNames;
      RequiredIsAllowed();
      var captured := Captured(files);
      if exists n <- captured :: n in RequiredNames() && |captured[n]| > MAX_FILE_BYTES {
        return Err(FileTooLarge);
      }
      if exists n <- RequiredNames() :: n !in captured {
        return Err(SourceMissing);
      }
      if exists n <- captured :: |captured[n]| > MAX_FILE_BYTES {
        return Err(FileTooLarge);
      }
      if !ValidSnapshot(env, captured) {
        return Err(SnapshotInvalid);
      }
      r := Ok(captured);
    }

    /** A scheduled backup is skipped if there is one that `today` accepts. A new backup that pruning drops at once
        is an error, raised after it was stored. */
    method CreateBackup(m: Making, keep: int, scheduled: bool, today: string -> bool) returns (r: Result<Creation, BackupError>)
      modifies this`backups
      ensures r == Err(BadRetention) <==> !(1 <= keep <= 100)
      ensures reliable && 1 <= keep <= 100 ==>
                var daily, sound := scheduled && exists n <- old(backups) :: today(n), Capturable(env, Captured(files));
                && (r.Ok? && r.value.Skipped? <==> daily)
                && (r.Err? && r.error in {SourceMissing, FileTooLarge, SnapshotInvalid} <==> !daily && !sound)
                && (r == Err(AlreadyExists) <==> !daily && sound && m.name in old(backups))
                && (r == Err(ArchiveTooLarge) <==> !daily && sound && m.name !in old(backups) && m.packed > 8388608)
                && (r.Err? ==> r.error in {SourceMissing, FileTooLarge, SnapshotInvalid, AlreadyExists, ArchiveTooLarge, Vanished})
      ensures r.Ok? && r.value.Skipped? ==>
                && scheduled && r.value.name in old(backups) && today(r.value.name)
                && Retention.Retained(Times(old(backups)), keep, backups.Keys)
      ensures scheduled && (exists n <- old(backups) :: today(n)) ==> r.Err? || r.value.Skipped?
      ensures r.Ok? && r.value.Created? ==>
                && r.value.name == m.name && m.name !in old(backups) && m.name in backups && Capturable(env, Captured(files))
                && backups[m.name].mtime == m.mtime && backups[m.name].archive.size <= MAX_ARCHIVE_BYTES
                && Records(env, backups[m.name].archive, Captured(files), m.info)
                && Retention.Retained(Times(old(backups))[m.name := m.mtime], keep, backups.Keys)
                && forall kept <- backups, gone <- old(backups) :: gone !in backups ==> old(backups)[gone].mtime <= backups[kept].mtime
      ensures r == Err(AlreadyExists) ==> m.name in old(backups) && backups == old(backups)
      ensures r == Err(Vanished) ==>
                keep >= 1 && exists kept :: Retention.Retained(Times(old(backups))[m.name := m.mtime], keep, kept) && m.name !in kept
      ensures forall n <- backups :: (n in old(backups) && backups[n] == old(backups)[n]) || (n == m.name && n !in old(backups))
    {
      hide RequiredNames, AllowedNames, Retention.Retained, Records, Capturable;
      if !(1 <= keep <= 100) {
        return Err(BadRetention);
      }
      var ok;
      ghost var kept;
      var daily := set n | n in backups && today(n);
      assert forall n <- backups :: today(n) ==> n in daily;
      if scheduled && daily != {} {
        var existing := Least(daily);
        backups, ok, kept := Retention.Prune(backups, Times(backups), keep, reliable);
        r := if ok then Ok(Skipped(existing)) else Err(PruneFailed);
        return;
      }
      var sources := SnapshotSources();
      if sources.Err? {
        return Err(sources.error);
      }
      var captured := sources.value;
      if m.name in backups {
        return Err(AlreadyExists);
      }
      r := StoreBackup(m, captured, keep);
    }

    method StoreBackup(m: Making, captured: Payload, keep: nat) returns (r: Result<Creation, BackupError>)
      requires keep >= 1 && m.name !in backups
      modifies this`backups
      ensures r.Ok? ==>
                && r == Ok(Created(m.name)) && m.name in backups
                && backups[m.name].mtime == m.mtime && backups[m.name].archive.size <= MAX_ARCHIVE_BYTES
                && Records(env, backups[m.name].archive, captured, m.info)
                && Retention.Retained(Times(old(backups))[m.name := m.mtime], keep, backups.Keys)
      ensures r.Ok? ==> forall kept <- backups, gone <- old(backups) :: gone !in backups ==> old(backups)[gone].mtime <= backups[kept].mtime
      ensures r == Err(ArchiveTooLarge) <==> m.packed > 8388608
      ensures r.Err? ==> r.error in (if reliable then {ArchiveTooLarge, Vanished} else {ArchiveTooLarge, PruneFailed, Vanished})
      ensures r == Err(Vanished) ==>
                exists kept :: Retention.Retained(Times(old(backups))[m.name := m.mtime], keep, kept) && m.name !in kept
      ensures forall n <- backups :: (n in old(backups) && backups[n] == old(backups)[n]) || n == m.name
    {
      hide AllowedNames, Retention.Retained, Ascending, Distinct;
      var names := Sort(captured.Keys);
      var archive := Archive(m.packed, TarOf(env.encode(ManifestOf(env, captured, names, m.info)), captured, names));
      if m.packed > MAX_ARCHIVE_BYTES {
        return Err(ArchiveTooLarge);
      }
      assert Records(env, archive, captured, m.info);
      hide Records;
      var all := backups[m.name := Saved(m.mtime, archive)];
      assert Times(all) == Times(backups)[m.name := m.mtime];
      var ok;
      ghost var kept;
      backups, ok, kept := Retention.Prune(all, Times(all), keep, reliable);
      if !ok {
        return Err(PruneFailed);
      }
      forall a <- backups, b <- old(backups) | b !in backups ensures all[b].mtime <= all[a].mtime {
        Retention.DroppedIsOlder(Times(all), keep, backups.Keys, a, b);
      }
      r := if m.name in backups then Ok(Created(m.name)) else Err(Vanished);
    }

    /** Files of the backup replace those of the configuration one at a time; others are not touched. Without `apply`
        nothing changes. A safety backup comes first if it is asked for: it may fail without stopping the restore,
        unless it vanishes. */
    method RestoreBackup(name: string, apply: bool, keep: int, safety: Option<Making>) returns (r: Result<Restoration, BackupError>)
      modifies this`files, this`backups
      ensures !(1 <= keep <= 100) ==> r == Err(BadRetention)
      ensures 1 <= keep <= 100 && name !in old(backups) ==> r == Err(NotFound)
      ensures !(1 <= keep <= 100) || name !in old(backups) ==> files == old(files) && backups == old(backups)
      ensures 1 <= keep <= 100 && name in old(backups) ==>
                match ReadArchive(env, old(backups)[name].archive)
                case Err(e) => r == Err(e) && files == old(files) && backups == old(backups)
                case Ok((_, saved)) =>
                  && (!apply ==> r == Ok(Plan(saved.Keys)) && files == old(files) && backups == old(backups))
                  && (apply && r.Ok? ==> r.value.Restored? && files == old(files) + saved)
                  && old(files).Keys <= files.Keys
                  && forall n <- files :: (n in saved && files[n] == saved[n]) || (n in old(files) && files[n] == old(files)[n])
      ensures r.Ok? && r.value.Restored? && r.value.safety.Some? ==>
                && safety.Some? && r.value.safety.value == safety.value.name && safety.value.name in backups
                && Records(env, backups[safety.value.name].archive, Captured(old(files)), safety.value.info)
      ensures safety.None? ==> backups == old(backups)
      ensures reliable && apply && safety.None? && 1 <= keep <= 100 && name in old(backups) ==>
                match ReadArchive(env, old(backups)[name].archive)
                case Err(e) => r == Err(e)
                case Ok((_, saved)) => r == Ok(Restored(None)) && files == old(files) + saved
      ensures reliable && apply && safety.Some? && 1 <= keep <= 100 && name in old(backups)
              && ReadArchive(env, old(backups)[name].archive).Ok? ==>
                var m := safety.value;
                var made := Capturable(env, Captured(old(files))) && m.name !in old(backups) && m.packed <= 8388608;
                && (!made ==> r == Ok(Restored(None)))
                && (made ==> r == Ok(Restored(Some(m.name))) || r == Err(Vanished))
                && (r == Ok(Restored(Some(m.name))) ==> Retention.Retained(Times(old(backups))[m.name := m.mtime], keep, backups.Keys))
                && (r == Err(Vanished) ==>
                      && files == old(files)
                      && exists kept :: Retention.Retained(Times(old(backups))[m.name := m.mtime], keep, kept) && m.name !in kept)
      ensures reliable && apply && r.Err? && name in old(backups) && ReadArchive(env, old(backups)[name].archive).Ok? ==>
                r.error in {BadRetention, Vanished}
    {
      hide ReadArchive, Records, Capturable, Retention.Retained;
      if !(1 <= keep <= 100) {
        return Err(BadRetention);
      }
      if name !in backups {
        return Err(NotFound);
      }
      var read := ReadBackup(env, backups[name].archive);
      if read.Err? {
        return Err(read.error);
      }
      var (_, saved) := read.value;
      if !apply {
        return Ok(Plan(saved.Keys));
      }
      var made: Option<string> := None;
      if safety.Some? {
        var created := CreateBackup(safety.value, keep, false, _ => false);
        if created == Err(Vanished) {
          return Err(Vanished);
        }
        made := if created.Ok? then Some(safety.value.name) else None;
      }
      var names := Sort(saved.Keys);
      var ok := InstallAll(saved, names);
      assert Selected(saved, names) == saved;
      r := if ok then Ok(Restored(made)) else Err(WriteFailed);
    }

    method InstallAll(saved: Payload, names: seq<string>) returns (ok: bool)
      requires forall n <- names :: n in saved
      modifies this`files
      ensures ok ==> files == old(files) + Selected(saved, names)
      ensures reliable ==> ok
      ensures old(files).Keys <= files.Keys
      ensures forall n <- files :: (n in saved && files[n] == saved[n]) || (n in old(files) && files[n] == old(files)[n])
    {
      hide Selected;
      ghost var before := files;
      SelectedNothing(saved);
      for i := 0 to |names|
        invariant files == before + Selected(saved, names[..i])
      {
        Between(before, saved, names[..i]);
        var failed: bool := *;
        if failed && !reliable {
          return false;
        }
        assert names[i] in names && names[..i + 1] == names[..i] + [names[i]];
        SelectedStep(saved, names[..i], names[i]);
        files := files[names[i] := saved[names[i]]];
      }
      Between(before, saved, names);
      assert names[..|names|] == names;
      ok := true;
    }
  }

  lemma Between(before: Payload, saved: Payload, names: seq<string>)
    requires forall n <- names :: n in saved
    ensures var files := before + Selected(saved, names);
            && before.Keys <= files.Keys
            && forall n <- files :: (n in saved && files[n] == saved[n]) || (n in before && files[n] == before[n])
  {
  }

  lemma RequiredIsAllowed()
    ensures RequiredNames() <= AllowedNames()
  {
  }
}
