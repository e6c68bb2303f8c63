/**
 The update transaction (update_engine.py: `apply_update` with `_create_software_rollback`, `_install_payload`,
 `_restore_software_rollback`). Any file operation may fail at any point, before or after it took effect;
 restart, health check, configuration backup and history file enter only through their success.
 */
module UpdateEngine {
  import opened Wrappers
  import opened Bits
  import opened UpdatePaths
  import opened UpdatePackage
  import opened UpdateRollback
  import Retention

  const ROLLBACK_RETENTION: nat := 3

  // ---------- Installed software ----------

  function At(software: Software, path: string): Option<Bytes> {
    if path in software then Some(software[path]) else None
  }

  ghost predicate IsTarget(logicals: seq<string>, path: string)
    requires AllCanonical(logicals)
  {
    exists f <- logicals :: TargetFor(f) == path
  }

  /** Two states that agree everywhere but on the targets of some logical paths. */
  ghost predicate SameOutside(a: Software, b: Software, logicals: seq<string>)
    requires AllCanonical(logicals)
  {
    forall path :: !IsTarget(logicals, path) ==> At(a, path) == At(b, path)
  }

  lemma TargetsGrow(init: seq<string>, f: string)
    requires AllCanonical(init) && Canonical(f)
    ensures AllCanonical(init + [f]) && forall path :: IsTarget(init + [f], path) <==> IsTarget(init, path) || TargetFor(f) == path
  {
    hide Canonical, TargetFor;
    forall path ensures IsTarget(init + [f], path) <==> IsTarget(init, path) || TargetFor(f) == path {
      if TargetFor(f) == path {
        assert f in init + [f];
      }
      if IsTarget(init, path) {
        var g :| g in init && TargetFor(g) == path;
        assert g in init + [f];
      }
    }
  }

  // ---------- Installing ----------

  function InstalledAll(software: Software, payload: Payload, logicals: seq<string>): Software
    requires AllCanonical(logicals) && forall f <- logicals :: f in payload
  {
    if logicals == [] then software
    else
      var f := logicals[|logicals| - 1];
      InstalledAll(software, payload, logicals[..|logicals| - 1])[TargetFor(f) := payload[f]]
  }

  /** Installing puts every payload at its own place, whatever the order, and touches nothing else. */
  lemma {:induction false} InstallHolds(software: Software, payload: Payload, logicals: seq<string>)
    requires AllCanonical(logicals) && forall f <- logicals :: f in payload
    ensures SameOutside(InstalledAll(software, payload, logicals), software, logicals)
    ensures forall f <- logicals :: At(InstalledAll(software, payload, logicals), TargetFor(f)) == Some(payload[f])
  {
    hide Canonical, TargetFor;
    if logicals != [] {
      var init, f := logicals[..|logicals| - 1], logicals[|logicals| - 1];
      assert logicals == init + [f];
      InstallHolds(software, payload, init);
      TargetsGrow(init, f);
      forall g <- logicals ensures At(InstalledAll(software, payload, logicals), TargetFor(g)) == Some(payload[g]) {
        if TargetFor(g) == TargetFor(f) {
          TargetsAreDistinct(f, g);
        }
      }
    }
  }

  // ---------- Restoring ----------

  function RestoreItem(env: RollbackEnv, item: Item, payload: Payload, software: Software): Option<Software> {
    match SafeLogicalPath(item.path)
    case Err(_) => None
    case Ok(logical) =>
      SafeIsCanonical(item.path);
      var data := if logical in payload then payload[logical] else [];
      if item.existed then
        if item.size != |data| || item.digest != env.sha(data) then None
        else Some(software[TargetFor(logical) := data])
      else if logical in payload then None
      else Some(software - {TargetFor(logical)})
  }

  /** An entry is restored exactly if its path is accepted and the snapshot agrees with it: the saved bytes have the
      recorded size and digest, and there are none for a file that did not exist. */
  lemma RestoreItemMeans(env: RollbackEnv, item: Item, payload: Payload, software: Software, logical: string)
    requires SafeLogicalPath(item.path) == Ok(logical) && Canonical(logical)
    ensures var r := RestoreItem(env, item, payload, software);
            var data := if logical in payload then payload[logical] else [];
            && (r.Some? <==> if item.existed then item.size == |data| && item.digest == env.sha(data) else logical !in payload)
            && (r.Some? ==> At(r.value, TargetFor(logical)) == (if item.existed then Some(data) else None)
                            && forall path :: path != TargetFor(logical) ==> At(r.value, path) == At(software, path))
  {
    hide SafeLogicalPath, TargetFor;
  }

  function RestoreItems(env: RollbackEnv, items: seq<Item>, payload: Payload, software: Software): Option<Software> {
    if items == [] then Some(software)
    else
      match RestoreItems(env, items[..|items| - 1], payload, software)
      case None => None
      case Some(s) => RestoreItem(env, items[|items| - 1], payload, s)
  }

  lemma RestoreSavedItem(env: RollbackEnv, orig: Software, logicals: seq<string>, f: string, software: Software)
    requires AllCanonical(logicals) && f in logicals
    ensures var r := RestoreItem(env, ItemFor(env, orig, f), SavedPayload(orig, logicals), software);
            && r.Some? && At(r.value, TargetFor(f)) == At(orig, TargetFor(f))
            && forall path :: path != TargetFor(f) ==> At(r.value, path) == At(software, path)
  {
    hide SafeLogicalPath, TargetFor, ModeFor;
  }

  /** Restoring the first `n` files of a snapshot from any state that agrees with the original outside its
      targets keeps that agreement and settles those `n` files. */
  lemma {:induction false} RestoreProgress(env: RollbackEnv, orig: Software, logicals: seq<string>, software: Software, n: nat)
    requires AllCanonical(logicals) && n <= |logicals| && SameOutside(software, orig, logicals)
    ensures var r := RestoreItems(env, ItemsFor(env, orig, logicals)[..n], SavedPayload(orig, logicals), software);
            && r.Some? && SameOutside(r.value, orig, logicals)
            && forall f <- logicals[..n] :: At(r.value, TargetFor(f)) == At(orig, TargetFor(f))
  {
    hide Canonical, TargetFor, RestoreItem, SavedPayload, ItemFor;
    var items := ItemsFor(env, orig, logicals);
    if n > 0 {
      var f := logicals[n - 1];
      RestoreProgress(env, orig, logicals, software, n - 1);
      assert items[..n][..n - 1] == items[..n - 1];
      ItemsForAt(env, orig, logicals, n - 1);
      assert f in logicals;
      assert IsTarget(logicals, TargetFor(f));
      var s := RestoreItems(env, items[..n - 1], SavedPayload(orig, logicals), software).value;
      RestoreSavedItem(env, orig, logicals, f, s);
      assert logicals[..n] == logicals[..n - 1] + [f];
    }
  }

  /** A snapshot recovers the original from any state that differs from it only on targets of the snapshot:
      after a partial installation, after an interrupted restore, and once more after a complete one. */
  lemma RestoreRecovers(env: RollbackEnv, orig: Software, logicals: seq<string>, software: Software)
    requires AllCanonical(logicals) && SameOutside(software, orig, logicals)
    ensures RestoreItems(env, ItemsFor(env, orig, logicals), SavedPayload(orig, logicals), software) == Some(orig)
  {
    hide Canonical, TargetFor, RestoreItem, RestoreItems, SavedPayload, ItemsFor;
    var items := ItemsFor(env, orig, logicals);
    RestoreProgress(env, orig, logicals, software, |logicals|);
    assert items[..|logicals|] == items && logicals[..|logicals|] == logicals;
    var s := RestoreItems(env, items, SavedPayload(orig, logicals), software).value;
    forall path ensures At(s, path) == At(orig, path) {
      if IsTarget(logicals, path) {
        var f :| f in logicals && TargetFor(f) == path;
      }
    }
    SameEverywhere(s, orig);
  }

  lemma SameEverywhere(a: Software, b: Software)
    requires forall path :: At(a, path) == At(b, path)
    ensures a == b
  {
    assert forall path :: (path in a <==> path in b) && (path in a ==> a[path] == b[path]) by {
      assert forall path :: At(a, path) == At(b, path) ==> (path in a <==> path in b);
    }
    assert a.Keys == b.Keys;
  }
}
